/** LOCK ADD, SUB and AND on memory: the prefix is accepted, and then the operand is loaded and stored like any
    other. */
module PlainRmw {
  import opened Bits
  import opened MemoryManagement
  import opened CpuState
  import opened LinearMemory
  import Flags
  import opened Addressing
  import AluDecode
  import AluExecute
  import opened Atomic

  /** Between its load and its store a thread holds the value it loaded. */
  datatype Stage = Free | Holding(op: Op, seen: nat)

  /** The shared word, the threads, and the completed operations in the order of their stores. */
  datatype Plain = Plain(word: nat, threads: seq<Stage>, history: seq<Done>)

  /** Loads and stores of the word are taken as whole. */
  datatype Action = Load(thread: nat, op: Op) | Save(thread: nat)

  function Next(s: Plain, a: Action, size: nat): Plain {
    if a.thread >= |s.threads| then s
    else
      match (a, s.threads[a.thread])
      case (Load(t, op), Free) => s.(threads := s.threads[t := Holding(op, s.word)])
      case (Save(t), Holding(op, seen)) =>
        Plain(Result(op, seen, size), s.threads[t := Free], s.history + [Done(t, op, seen, Result(op, seen, size))])
      case _ => s
  }

  function Run(s: Plain, actions: seq<Action>, size: nat): Plain
    decreases |actions|
  {
    if actions == [] then s else Run(Next(s, actions[0], size), actions[1..], size)
  }

  /** The thread is about to store, and what was stored since its load does not change what it stores. */
  predicate Harmless(s: Plain, a: Action, size: nat) {
    a.Save? && a.thread < |s.threads| && s.threads[a.thread].Holding? ==>
      var held := s.threads[a.thread];
      Result(held.op, held.seen, size) == Result(held.op, s.word, size)
  }

  predicate AllHarmless(s: Plain, actions: seq<Action>, size: nat)
    decreases |actions|
  {
    actions == [] || (Harmless(s, actions[0], size) && AllHarmless(Next(s, actions[0], size), actions[1..], size))
  }

  /** In every state of the run the word is what the completed operations leave when done one by one. */
  predicate AlwaysFold(word: nat, s: Plain, actions: seq<Action>, size: nat)
    decreases |actions|
  {
    && s.word == Fold(word, s.history, size)
    && (actions == [] || AlwaysFold(word, Next(s, actions[0], size), actions[1..], size))
  }

  lemma {:induction false} FoldAppend(word: nat, history: seq<Done>, d: Done, size: nat)
    ensures Fold(word, history + [d], size) == Result(d.op, Fold(word, history, size), size)
  {
    hide Result;
    assert (history + [d])[..|history|] == history;
  }

  lemma {:induction false} NextFoldIff(word: nat, s: Plain, a: Action, size: nat)
    requires s.word == Fold(word, s.history, size)
    ensures var after := Next(s, a, size);
            after.word == Fold(word, after.history, size) <==> Harmless(s, a, size)
  {
    hide Result, Fold;
    if a.Save? && a.thread < |s.threads| && s.threads[a.thread].Holding? {
      var held := s.threads[a.thread];
      FoldAppend(word, s.history, Done(a.thread, held.op, held.seen, Result(held.op, held.seen, size)), size);
    }
  }

  lemma {:induction false} StartsFolded(word: nat, s: Plain, actions: seq<Action>, size: nat)
    requires AlwaysFold(word, s, actions, size)
    ensures s.word == Fold(word, s.history, size)
  {
    hide Fold, Next;
  }

  /** The operations come out as if done one by one, all along the run, exactly when no store that changes the
      outcome falls between a thread's load and its own store. */
  lemma {:induction false} PlainFoldIff(word: nat, s: Plain, actions: seq<Action>, size: nat)
    requires s.word == Fold(word, s.history, size)
    ensures AlwaysFold(word, s, actions, size) <==> AllHarmless(s, actions, size)
    decreases |actions|
  {
    hide Fold, Next, Harmless;
    if actions != [] {
      var after := Next(s, actions[0], size);
      NextFoldIff(word, s, actions[0], size);
      if after.word == Fold(word, after.history, size) {
        PlainFoldIff(word, after, actions[1..], size);
      } else if AlwaysFold(word, after, actions[1..], size) {
        StartsFolded(word, after, actions[1..], size);
      }
    }
  }

  /** A thread nobody has overtaken is harmless. */
  lemma {:induction false} UndisturbedIsHarmless(s: Plain, t: nat, size: nat)
    requires t < |s.threads| && s.threads[t].Holding? && s.threads[t].seen == s.word
    ensures Harmless(s, Save(t), size)
  {
  }

  // What additions lose.

  /** What had been stored between the load and the store of each operation, and is overwritten. */
  function Lost(s: Plain, actions: seq<Action>, size: nat): int
    decreases |actions|
  {
    if actions == [] then 0
    else
      var a := actions[0];
      (if a.Save? && a.thread < |s.threads|
       && s.threads[a.thread].Holding? then s.word - s.threads[a.thread].seen else 0)
      + Lost(Next(s, a, size), actions[1..], size)
  }

  /** Only additions are in progress, and every value fits. */
  ghost predicate Adding(s: Plain, size: nat) {
    && s.word < Modulus(size)
    && forall t :: 0 <= t < |s.threads| && s.threads[t].Holding? ==>
       s.threads[t].op.AddOp? && s.threads[t].seen < Modulus(size)
  }

  ghost predicate OnlyAddLoads(actions: seq<Action>) {
    forall i :: 0 <= i < |actions| && actions[i].Load? ==> actions[i].op.AddOp?
  }

  /** The operands of the operations that complete during the run. */
  function Operands(s: Plain, actions: seq<Action>, size: nat): int
    decreases |actions|
  {
    if actions == [] then 0
    else
      var a := actions[0];
      (if a.Save? && a.thread < |s.threads| && s.threads[a.thread].Holding? then s.threads[a.thread].op.operand else 0)
      + Operands(Next(s, a, size), actions[1..], size)
  }

  lemma {:induction false} AddStored(seen: nat, operand: u64, size: nat)
    requires OperandSize(size)
    ensures Result(AddOp(operand), seen, size) == (seen + operand) % Modulus(size)
  {
    hide Modulus, Wrap;
    WrapMod(Wrap(seen) + operand, size);
    WrapMod(seen, size);
    ModPlus(Wrap(seen), operand, Modulus(size));
    ModPlus(seen, operand, Modulus(size));
  }

  lemma {:induction false} NextAdding(s: Plain, a: Action, size: nat)
    requires Adding(s, size) && (a.Load? ==> a.op.AddOp?)
    ensures Adding(Next(s, a, size), size)
  {
    hide Modulus, Callback;
  }

  lemma {:induction false} Shift(x: int, y: int, d: int, m: nat)
    requires m > 0 && x % m == y
    ensures (x + d) % m == (y + d) % m
  {
    ModPlus(x, d, m);
  }

  /** The operation this action completes, if it does. */
  function Completed(s: Plain, a: Action): Option<Stage> {
    if a.Save? && a.thread < |s.threads| && s.threads[a.thread].Holding? then Some(s.threads[a.thread]) else None
  }

  lemma {:induction false} UnfoldAdds(s: Plain, actions: seq<Action>, size: nat)
    requires actions != []
    ensures var a, rest := actions[0], actions[1..];
            var after, done := Next(s, a, size), Completed(s, a);
            && (done.Some? ==> done.value.Holding? && (Adding(s, size) ==> done.value.op.AddOp?))
            && Run(s, actions, size) == Run(after, rest, size)
            && Lost(s, actions, size)
               == (if done.Some? then s.word - done.value.seen else 0) + Lost(after, rest, size)
            && Operands(s, actions, size)
               == (if done.Some? then done.value.op.operand else 0) + Operands(after, rest, size)
    ensures OnlyAddLoads(actions) ==> OnlyAddLoads(actions[1..]) && (actions[0].Load? ==> actions[0].op.AddOp?)
  {
    hide Modulus, Result, Next;
    assert forall i :: 0 <= i < |actions[1..]| ==> actions[1..][i] == actions[i + 1];
  }

  lemma {:induction false} AddsWord(s: Plain, actions: seq<Action>, size: nat)
    requires OperandSize(size) && Adding(s, size) && OnlyAddLoads(actions)
    ensures Run(s, actions, size).word
            == (s.word + Operands(s, actions, size) - Lost(s, actions, size)) % Modulus(size)
    decreases |actions|
  {
    hide Modulus, Result, Next, Completed, Adding, OnlyAddLoads, OperandSize, Run, Operands, Lost;
    if actions == [] {
      NothingAdded(s, size);
    } else {
      var a, rest := actions[0], actions[1..];
      var after, done := Next(s, a, size), Completed(s, a);
      UnfoldAdds(s, actions, size);
      NextAdding(s, a, size);
      AddsWord(after, rest, size);
      StepWord(s, a, size);
      if done.Some? {
        ModPlus(done.value.seen + done.value.op.operand, Operands(after, rest, size) - Lost(after, rest, size),
                Modulus(size));
      }
    }
  }

  lemma {:induction false} NothingAdded(s: Plain, size: nat)
    requires OperandSize(size) && Adding(s, size)
    ensures Run(s, [], size).word == (s.word + Operands(s, [], size) - Lost(s, [], size)) % Modulus(size)
  {
    hide Modulus;
    SmallMod(s.word, size);
  }

  /** After any run of plain additions the word is the first one plus the operands, less what was stored between a
      load and its store: so the run adds up exactly when those losses cancel modulo the size. */
  lemma {:induction false} PlainAddsIff(s: Plain, actions: seq<Action>, size: nat)
    requires OperandSize(size) && Adding(s, size) && OnlyAddLoads(actions)
    ensures var late := Run(s, actions, size);
            && late.word == (s.word + Operands(s, actions, size) - Lost(s, actions, size)) % Modulus(size)
            && (late.word == (s.word + Operands(s, actions, size)) % Modulus(size)
                <==> Lost(s, actions, size) % Modulus(size) == 0)
  {
    hide *;
    AddsWord(s, actions, size);
    Cancels(s.word + Operands(s, actions, size), Lost(s, actions, size), Modulus(size));
  }

  lemma {:induction false} StepWord(s: Plain, a: Action, size: nat)
    requires OperandSize(size) && Adding(s, size)
    ensures var done := Completed(s, a);
            && (done.Some? ==> done.value.Holding? && done.value.op.AddOp?)
            && Next(s, a, size).word
               == if done.Some? then (done.value.seen + done.value.op.operand) % Modulus(size) else s.word
  {
    hide Modulus, Result;
    if Completed(s, a).Some? {
      AddStored(s.threads[a.thread].seen, s.threads[a.thread].op.operand, size);
    }
  }

  lemma {:induction false} Cancels(x: int, d: int, m: nat)
    requires m > 0
    ensures (x - d) % m == x % m <==> d % m == 0
  {
    var q, r := d / m, d % m;
    var k, s := x / m, x % m;
    assert d == m * q + r && x == m * k + s;
    assert m * (k - q) == m * k - m * q;
    if s >= r {
      DivUnique(x - d, m, k - q, s - r);
    } else {
      assert m * (k - q - 1) == m * (k - q) - m;
      DivUnique(x - d, m, k - q - 1, s - r + m);
    }
  }

  lemma {:induction false} RunStep(s: Plain, actions: seq<Action>, size: nat)
    requires actions != []
    ensures Run(s, actions, size) == Run(Next(s, actions[0], size), actions[1..], size)
    ensures forall t: Plain :: Run(t, [], size) == t
  {
    hide Next;
  }

  function TwoLoadsTwoStores(a: u64, b: u64): seq<Action> {
    [Load(0, AddOp(a)), Load(1, AddOp(b)), Save(0), Save(1)]
  }

  function BothDone(word: nat, a: u64, b: u64, size: nat): seq<Done> {
    [Done(0, AddOp(a), word, Result(AddOp(a), word, size)), Done(1, AddOp(b), word, Result(AddOp(b), word, size))]
  }

  lemma {:induction false} TwoStores(word: nat, a: u64, b: u64, size: nat)
    ensures Run(Plain(word, [Free, Free], []), TwoLoadsTwoStores(a, b), size)
            == Plain(Result(AddOp(b), word, size), [Free, Free], BothDone(word, a, b, size))
  {
    hide Modulus, Result, Run;
    var start, actions := Plain(word, [Free, Free], []), TwoLoadsTwoStores(a, b);
    var s1 := Next(start, actions[0], size);
    var s2 := Next(s1, actions[1], size);
    var s3 := Next(s2, actions[2], size);
    assert actions[1..][1..] == actions[2..] && actions[2..][1..] == actions[3..] && actions[3..][1..] == [];
    RunStep(start, actions, size);
    RunStep(s1, actions[1..], size);
    RunStep(s2, actions[2..], size);
    RunStep(s3, actions[3..], size);
    assert s2.threads == [Holding(AddOp(a), word), Holding(AddOp(b), word)];
  }

  lemma {:induction false} TwoFold(word: nat, a: u64, b: u64, size: nat)
    requires OperandSize(size)
    ensures Fold(word, BothDone(word, a, b, size), size) == (word + a + b) % Modulus(size)
  {
    hide Modulus, Result, Fold;
    var done := BothDone(word, a, b, size);
    assert done == ([] + [done[0]]) + [done[1]];
    FoldAppend(word, [], done[0], size);
    FoldAppend(word, [] + [done[0]], done[1], size);
    FoldNothing(word, size);
    AddStored(word, a, size);
    AddStored((word + a) % Modulus(size), b, size);
    ModPlus(word + a, b, Modulus(size));
  }

  lemma {:induction false} FoldNothing(word: nat, size: nat)
    ensures Fold(word, [], size) == word
  {
  }

  /** Two threads load the word, then both store: the first operand is gone, unless it is zero modulo the size. */
  lemma {:induction false} LostUpdate(word: nat, a: u64, b: u64, size: nat)
    requires OperandSize(size) && word < Modulus(size)
    ensures var late := Run(Plain(word, [Free, Free], []), TwoLoadsTwoStores(a, b), size);
            && late.word == (word + b) % Modulus(size) && |late.history| == 2
            && Fold(word, late.history, size) == (word + a + b) % Modulus(size)
            && (late.word == Fold(word, late.history, size) <==> a % Modulus(size) == 0)
  {
    hide Modulus, Result, Run, Fold;
    TwoStores(word, a, b, size);
    TwoFold(word, a, b, size);
    AddStored(word, b, size);
    Cancels(word + a + b, a, Modulus(size));
  }

  // The bodies do no more than that.

  /** One thread's load and store are those of the body of ADD, SUB and AND: what it stores is the result of what it
      loaded, whether or not a LOCK prefix was there. */
  lemma {:induction false} BodyIsPlain(w: Flags.Width, dst: nat, src: u64)
    requires dst < Flags.Modulus(w) && src < Flags.Modulus(w)
    ensures AluExecute.Result(AluDecode.Add, w, dst, src) == Result(AddOp(src), dst, w)
    ensures AluExecute.Result(AluDecode.Sub, w, dst, src) == Result(SubOp(src), dst, w)
    ensures AluExecute.Result(AluDecode.AluOp.AndOp, w, dst, src) == Result(Op.AndOp(src), dst, w)
  {
    hide Flags.Modulus, Modulus, Wrap, And;
    SameModulus(w);
    SmallWord(dst, w);
    WrapMod(dst + src, w);
    WrapMod(dst - src, w);
    WrapMod(And(dst, src), w);
  }

  lemma {:induction false} ResultsMod(dst: nat, x: u64, w: Flags.Width)
    requires dst < Modulus(w)
    ensures Result(AddOp(x), dst, w) == (dst + x) % Modulus(w)
    ensures Result(SubOp(x), dst, w) == (dst - x) % Modulus(w)
  {
    hide Modulus, Wrap;
    SmallWord(dst, w);
    WrapMod(dst + x, w);
    WrapMod(dst - x, w);
  }

  /** LOCK ADC and LOCK SBB are accepted in the same way, and to the shared word they are an addition and a subtraction
      of the operand with the thread's own carry. */
  lemma {:induction false} CarryIsPlain(w: Flags.Width, dst: nat, src: u64, carry: nat)
    requires dst < Flags.Modulus(w) && src < Flags.Modulus(w) && carry <= 1
    ensures Flags.AddResult(w, dst, src, carry) == Result(AddOp(Wrap(src + carry)), dst, w)
    ensures Flags.Low(w, dst - src - carry) == Result(SubOp(Wrap(src + carry)), dst, w)
  {
    hide Flags.Modulus, Modulus, Wrap, Result;
    SameModulus(w);
    ResultsMod(dst, Wrap(src + carry), w);
    CarriedMod(dst, src + carry, w);
    assert dst - src - carry == dst - (src + carry) && dst + src + carry == dst + (src + carry);
  }

  lemma {:induction false} CarriedMod(dst: nat, x: nat, w: Flags.Width)
    requires x <= WORD
    ensures (dst + Wrap(x)) % Modulus(w) == (dst + x) % Modulus(w)
    ensures (dst - Wrap(x)) % Modulus(w) == (dst - x) % Modulus(w)
  {
    hide Modulus;
    if x == WORD {
      WordShift(dst, w);
    }
  }

  lemma {:induction false} WordShift(dst: int, w: Flags.Width)
    ensures (dst + WORD) % Modulus(w) == dst % Modulus(w) && (dst - WORD) % Modulus(w) == dst % Modulus(w)
  {
    hide Modulus, Wrap;
    WrapTurns(dst);
    WrapMod(dst + WORD, w);
    WrapMod(dst - WORD, w);
    WrapMod(dst, w);
  }

  lemma {:induction false} WrapTurns(x: int)
    ensures Wrap(x + WORD) == Wrap(x) && Wrap(x - WORD) == Wrap(x)
  {
  }

  lemma {:induction false} SameModulus(w: Flags.Width)
    ensures Flags.Modulus(w) == Modulus(w) && OperandSize(w)
  {
  }

  lemma {:induction false} SmallWord(dst: nat, w: Flags.Width)
    requires dst < Modulus(w)
    ensures Wrap(dst) == dst
  {
  }

  /** A LOCK prefix changes nothing about how the memory forms that store are decoded. */
  lemma {:induction false} LockIsIgnored(op: AluDecode.AluOp, p: Prefixes, early: Option<ExceptionCode>, inst: Inst,
                                         code: seq<byte>, offset: nat)
    requires offset < |code| && ModField(code[offset]) != 3 && !inst.hasModrm
    requires inst.opcode - AluDecode.BaseOpcode(op) in {0, 1} || inst.opcode in {0x80, 0x81, 0x83}
    ensures AluDecode.ParseOperands(op, p, true, early, inst, code, offset)
            == AluDecode.ParseOperands(op, p, false, early, inst, code, offset)
  {
    hide LittleEndian, AluDecode.ImmediateSize, RegField, AluDecode.SignedDisplacement, RmField;
  }
}
