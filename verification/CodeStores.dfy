/** When the stores of guest instructions keep the contract of the code version. */
module CodeStores {
  import opened Bits
  import opened MemoryManagement
  import opened CpuState
  import opened LinearMemory
  import opened Fetch
  import opened Flags
  import opened Addressing
  import opened AluDecode
  import opened AluExecute
  import opened Decoder
  import opened Executor
  import opened Replay
  import opened InstCache
  import opened Transparency

  /** size bytes of a value, stored at an address. */
  datatype Write = ToMemory(address: u64, size: nat, value: nat)

  function Written(mem: Mem, w: Write): Mem {
    StoreBytes(mem, w.address, Bytes(w.value, w.size))
  }

  function WriteAll(mem: Mem, ws: seq<Write>): Mem
    decreases |ws|
  {
    if ws == [] then mem else Written(WriteAll(mem, ws[..|ws| - 1]), ws[|ws| - 1])
  }

  /** The offset of x in the write, which may run over the top of the address space. */
  function Offset(w: Write, x: u64): u64 {
    Wrap(x - w.address)
  }

  /** The byte the writes leave at x, if one of them reaches it: the last one counts. */
  function LastByte(ws: seq<Write>, x: u64): Option<byte>
    decreases |ws|
  {
    if ws == [] then None
    else
      var w := ws[|ws| - 1];
      if Offset(w, x) < w.size then Some(Bytes(w.value, w.size)[Offset(w, x)]) else LastByte(ws[..|ws| - 1], x)
  }

  /** The condition a caller can check before the stores: where code can be fetched, they put what is there. */
  ghost predicate SparesCode(mem: Mem, ws: seq<Write>) {
    forall x: u64 :: CodeByte(mem, x) != None && LastByte(ws, x) != None ==> LastByte(ws, x) == Some(ByteAt(mem, x))
  }

  predicate Reaches(mem: Mem, w: Write) {
    w.size <= 8 && forall i: nat :: i < w.size ==> Mapped(mem, Target(w, i))
  }

  /** The address of byte i of the write. */
  function Target(w: Write, i: nat): u64 {
    Wrap(w.address + i)
  }

  predicate ReachAll(mem: Mem, ws: seq<Write>) {
    forall i :: 0 <= i < |ws| ==> Reaches(mem, ws[i])
  }

  /** Memories that differ in host bytes only. */
  predicate SameMap(before: Mem, after: Mem) {
    after == before.(host := after.host)
  }

  lemma {:induction false} WrittenByte(mem: Mem, w: Write, x: u64)
    requires Unaliased(mem) && Reaches(mem, w) && Mapped(mem, x)
    ensures SameMap(mem, Written(mem, w))
    ensures ByteAt(Written(mem, w), x)
            == if Offset(w, x) < w.size then Bytes(w.value, w.size)[Offset(w, x)] else ByteAt(mem, x)
  {
    hide Ptr, Mapped, Wrap, Bytes, Put, Unaliased, Pointers;
    var ptrs := Pointers(mem, w.address, w.size);
    forall i, j | 0 <= i < j < w.size ensures ptrs[i] != ptrs[j] {
      PointerAt(mem, w.address, w.size, i);
      PointerAt(mem, w.address, w.size, j);
      WrapInjective(w.address, i, j);
      assert Mapped(mem, Target(w, i)) && Mapped(mem, Target(w, j));
      UnaliasedAt(mem, Target(w, i), Target(w, j));
    }
    PutAt(mem.host, ptrs, Bytes(w.value, w.size), Ptr(mem, x));
    SamePtr(mem, Written(mem, w), x);
    var o := Offset(w, x);
    if o < w.size {
      PointerAt(mem, w.address, w.size, o);
      BackTo(w.address, x);
    } else {
      forall i: nat | i < w.size ensures ptrs[i] != Ptr(mem, x) {
        PointerAt(mem, w.address, w.size, i);
        OtherByte(w, x, i);
        assert Mapped(mem, Target(w, i));
        UnaliasedAt(mem, Target(w, i), x);
      }
    }
  }

  lemma {:induction false} PointerAt(mem: Mem, address: u64, n: nat, i: nat)
    requires i < n
    ensures Pointers(mem, address, n)[i] == Ptr(mem, Wrap(address + i))
    decreases n
  {
    hide Ptr, Wrap;
    if i < n - 1 {
      PointerAt(mem, address, n - 1, i);
    }
  }

  lemma {:induction false} BackTo(address: u64, x: u64)
    ensures Wrap(address + Wrap(x - address)) == x
  {
  }

  lemma {:induction false} OtherByte(w: Write, x: u64, i: nat)
    requires i < w.size <= 8 && Offset(w, x) >= w.size
    ensures Wrap(w.address + i) != x
  {
  }

  lemma {:induction false} SameReach(before: Mem, after: Mem, w: Write)
    requires SameMap(before, after)
    ensures Reaches(after, w) == Reaches(before, w)
    ensures Unaliased(before) ==> Unaliased(after)
  {
    hide Ptr, Target;
    assert forall x: u64 :: Mapped(after, x) == Mapped(before, x);
    forall a: u64, b: u64 | Unaliased(before) && Mapped(after, a) && Mapped(after, b) && a != b
      ensures Ptr(after, a) != Ptr(after, b)
    {
      SamePtr(before, after, a);
      SamePtr(before, after, b);
    }
  }

  /** After any number of stores every byte is the last one written to it, or the one it was. */
  lemma {:induction false} WriteAllByte(mem: Mem, ws: seq<Write>, x: u64)
    requires Unaliased(mem) && ReachAll(mem, ws) && Mapped(mem, x)
    ensures SameMap(mem, WriteAll(mem, ws)) && Unaliased(WriteAll(mem, ws))
    ensures ByteAt(WriteAll(mem, ws), x)
            == match LastByte(ws, x) case Some(b) => b case None => ByteAt(mem, x)
    decreases |ws|
  {
    hide Ptr, Mapped, Bytes, Unaliased, Reaches, ByteAt, Written, Offset;
    if ws != [] {
      var first, w := ws[..|ws| - 1], ws[|ws| - 1];
      WriteAllByte(mem, first, x);
      var mid := WriteAll(mem, first);
      SameReach(mem, mid, w);
      SamePtr(mem, mid, x);
      WrittenByte(mid, w, x);
      SameReach(mid, Written(mid, w), w);
    }
  }

  lemma {:induction false} AllMapped(mem: Mem, ws: seq<Write>)
    requires Unaliased(mem) && ReachAll(mem, ws) && exists x: u64 :: Mapped(mem, x)
    ensures SameMap(mem, WriteAll(mem, ws)) && Unaliased(WriteAll(mem, ws))
  {
    hide Mapped, Unaliased, Reaches, WriteAll;
    var x: u64 :| Mapped(mem, x);
    WriteAllByte(mem, ws, x);
  }

  lemma {:induction false} CodeIsMapped(mem: Mem, x: u64)
    requires CodeByte(mem, x) != None
    ensures Mapped(mem, x)
  {
  }

  lemma {:induction false} SameMapCode(before: Mem, after: Mem, x: u64)
    requires SameMap(before, after)
    ensures (CodeByte(after, x) == CodeByte(before, x))
            <==> (CodeByte(before, x) != None ==> ByteAt(after, x) == ByteAt(before, x))
  {
    hide Lookup;
    SamePtr(before, after, x);
    CodeIsByte(before, x);
    CodeIsByte(after, x);
    CodeSame(before, after, x);
  }

  lemma {:induction false} CodeSame(before: Mem, after: Mem, x: u64)
    requires Lookup(after, x, Exec) == Lookup(before, x, Exec)
    ensures (CodeByte(after, x) == None) == (CodeByte(before, x) == None)
  {
    hide Lookup;
  }

  /** Stores keep the contract of the code version if and only if, wherever code can be fetched, they leave the byte
      that was there. */
  lemma {:induction false} StoresKeepCodeIff(mem: Mem, ws: seq<Write>)
    requires Unaliased(mem) && ReachAll(mem, ws)
    ensures CodeKept(mem, WriteAll(mem, ws)) <==> SparesCode(mem, ws)
  {
    hide Ptr, Mapped, Unaliased, Reaches, ByteAt, LastByte, WriteAll, CodeByte;
    var after := WriteAll(mem, ws);
    NobodyMapped(mem, ws);
    forall x: u64
      ensures (CodeByte(after, x) == CodeByte(mem, x))
              <==> (CodeByte(mem, x) != None && LastByte(ws, x) != None ==> LastByte(ws, x) == Some(ByteAt(mem, x)))
    {
      SameMapCode(mem, after, x);
      if CodeByte(mem, x) != None {
        CodeIsMapped(mem, x);
        WriteAllByte(mem, ws, x);
      }
    }
  }

  lemma {:induction false} NobodyMapped(mem: Mem, ws: seq<Write>)
    requires Unaliased(mem) && ReachAll(mem, ws)
    ensures SameMap(mem, WriteAll(mem, ws))
    decreases |ws|
  {
    hide Unaliased, Reaches, Mapped, Bytes, Pointers, Put;
    if ws != [] {
      NobodyMapped(mem, ws[..|ws| - 1]);
    }
  }

  lemma {:induction false} OneWrite(mem: Mem, w: Write)
    ensures WriteAll(mem, [w]) == Written(mem, w)
    ensures forall x: u64 :: LastByte([w], x) == if Offset(w, x) < w.size
            then Some(Bytes(w.value, w.size)[Offset(w, x)]) else None
  {
    hide Written, Offset, Bytes;
    assert [w][..0] == [];
  }

  /** Byte i of the write falls where no code can be fetched, or on a byte of its own value. */
  predicate SparesByte(mem: Mem, w: Write, i: nat) {
    i < w.size && CodeByte(mem, Target(w, i)) != None ==> Bytes(w.value, w.size)[i] == ByteAt(mem, Target(w, i))
  }

  /** One store of a guest keeps the contract exactly when it writes, on code, the bytes that are there. */
  lemma {:induction false} StoreKeepsCodeIff(m: Machine, address: u64, n: nat, value: nat)
    requires Unaliased(m.mem) && n <= 8 && Accessible(m, address, n, Write)
    ensures CodeKept(m.mem, Store(m, address, n, value).mem)
            <==> forall i: nat :: i < n ==> SparesByte(m.mem, ToMemory(address, n, value), i)
  {
    hide Unaliased, Mapped, Accessible, CodeKept, CodeByte, ByteAt, Bytes, Wrap, StoreBytes, SparesCode, SparesByte;
    var w := ToMemory(address, n, value);
    forall i: nat | i < n ensures Mapped(m.mem, Target(w, i)) {
      AccessibleMapped(m, address, n, Access.Write, i);
    }
    OneWrite(m.mem, w);
    StoresKeepCodeIff(m.mem, [w]);
    SparesOne(m.mem, w);
  }

  lemma {:induction false} OffsetOf(w: Write, i: nat)
    requires i < 0x1_0000_0000_0000_0000
    ensures Offset(w, Target(w, i)) == i
  {
  }

  lemma {:induction false} SparesOne(mem: Mem, w: Write)
    requires w.size <= 8
    ensures SparesCode(mem, [w]) <==> forall i: nat :: i < w.size ==> SparesByte(mem, w, i)
  {
    hide CodeByte, ByteAt, Bytes, Wrap, Offset, LastByte, Target;
    OneWrite(mem, w);
    if SparesCode(mem, [w]) {
      forall i: nat | i < w.size ensures SparesByte(mem, w, i) {
        OffsetOf(w, i);
      }
    }
    if forall i: nat :: i < w.size ==> SparesByte(mem, w, i) {
      forall x: u64 | CodeByte(mem, x) != None && LastByte([w], x) != None
        ensures LastByte([w], x) == Some(ByteAt(mem, x))
      {
        TargetOf(w, x);
        assert SparesByte(mem, w, Offset(w, x));
      }
    }
  }

  lemma {:induction false} TargetOf(w: Write, x: u64)
    ensures Target(w, Offset(w, x)) == x
  {
    BackTo(w.address, x);
  }

  // The stores of an instruction, known before it runs.

  /** The store of a body of ADD, SUB or AND with a memory destination it may write; CMP and register forms have
      none. */
  function AluStores(op: AluOp, m: Machine, inst: Inst): seq<Write> {
    if !AluExecute.Handled(op, inst) || op == Cmp then []
    else
      var w := OperandWidth(m.cpu, op, inst);
      var destination := Destination(m.cpu, op, inst);
      var (m1, dst) := ReadOperand(m, inst, w, destination);
      var (m2, src) := ReadOperand(m1, inst, w, Source(m.cpu, op, inst, w));
      var m3 := m2.(cpu := WithFlags(m2.cpu, FlagsAfter(op, m2.cpu.scalar.rflags, w, dst, src)));
      if destination == InRm && ModField(inst.modrm) != 3 && Accessible(m3, inst.memAddress, w / 8, Access.Write) then
        [ToMemory(inst.memAddress, w / 8, Result(op, w, dst, src))]
      else []
  }

  function LegacyStores(op: AluOp, m: Machine, code: seq<byte>): seq<Write> {
    var decoded := Decode(op, m.cpu, code);
    if Pending(decoded) then [] else AluStores(op, m.(cpu := decoded), DecodedInst(op, m.cpu, code))
  }

  function FastStores(m: Machine, payload: Payload): seq<Write> {
    var c := Stamped(m.cpu, payload);
    if !MemoryForm(payload.inst) then AluStores(payload.op, m.(cpu := c), payload.inst)
    else
      AluStores(payload.op, m.(cpu := ValidateOperand(c, payload.inst, payload.length)),
                payload.inst.(memAddress := LinearAddress(c, payload.inst, payload.length)))
  }

  /** What handlers left opaque store, entry by entry and machine by machine. */
  type Stores = (Machine, Entry) -> seq<Write>

  predicate OtherEntry(e: Entry) {
    if e.fast.Some? then e.fast.value.OtherPrepared? else e.handler.Opaque?
  }

  /** Opaque handlers change memory through stores to mapped bytes only. */
  ghost predicate OthersStore(isa: Isa, stores: Stores) {
    forall m: Machine, e: Entry :: OtherEntry(e) ==>
      RunHandler(isa, m, e).mem == WriteAll(m.mem, stores(m, e)) && ReachAll(m.mem, stores(m, e))
  }

  function HandlerStores(stores: Stores, m: Machine, e: Entry): seq<Write> {
    if OtherEntry(e) then stores(m, e)
    else if e.fast.Some? then FastStores(m, e.fast.value.payload)
    else if e.handler.Alu? then LegacyStores(e.handler.op, m, e.bytes)
    else []
  }

  /** RET, Jcc and the quick exceptions store nothing. */
  function EntryStores(stores: Stores, m: Machine, e: Entry): seq<Write> {
    if e.bytes == [] || e.ud || e.bp || e.db || e.inline != NotInline then []
    else HandlerStores(stores, m.(cpu := WithOverride(m.cpu, e.segmentOverride)), e)
  }

  /** The stores the next step will make. */
  function StepStores(isa: Isa, stores: Stores, m: Machine): seq<Write> {
    if Pending(m.cpu) then []
    else EntryStores(stores, Keyed(m), DecodeAt(isa, Keyed(m).cpu, Window(m.mem, m.cpu.scalar.rip)))
  }

  lemma {:induction false} ReadKeeps(m: Machine, inst: Inst, w: Width, place: Place)
    ensures ReadOperand(m, inst, w, place).0.mem == m.mem
  {
    hide Checked, LoadValue, GetReg;
    CheckedFrame(m, inst.memAddress, w / 8, Read);
  }

  lemma {:induction false} PutMemory(m: Machine, inst: Inst, w: Width, place: Place, value: nat)
    requires value < Modulus(w)
    ensures WriteOperand(m, inst, w, place, value).mem
            == if place == InRm && ModField(inst.modrm) != 3 && Accessible(m, inst.memAddress, w / 8, Access.Write) then
                 StoreBytes(m.mem, inst.memAddress, Bytes(value, w / 8))
               else m.mem
  {
    hide Checked, SetReg, Accessible, StoreBytes, Bytes, ModField;
    CheckedFrame(m, inst.memAddress, w / 8, Access.Write);
    if place.InRegister? {
      SetRegFrame(m.cpu, place.index, w, value);
    }
    SetRegFrame(m.cpu, RmIndex(m.cpu, inst), w, value);
  }

  lemma {:induction false} AluMemory(op: AluOp, m: Machine, inst: Inst)
    ensures Execute(op, m, inst).mem == WriteAll(m.mem, AluStores(op, m, inst))
            && ReachAll(m.mem, AluStores(op, m, inst))
  {
    hide ReadOperand, WriteOperand, AluExecute.Handled, OperandWidth, Destination, Source, FlagsAfter, Result,
      WithFlags, Modulus, Reaches,
      Accessible, ModField, WriteAll, StoreBytes;
    NoWrites(m.mem);
    UnfoldExecute(op, m, inst);
    if AluExecute.Handled(op, inst) {
      var w := OperandWidth(m.cpu, op, inst);
      var destination := Destination(m.cpu, op, inst);
      var source := Source(m.cpu, op, inst, w);
      var (m1, dst) := ReadOperand(m, inst, w, destination);
      var (m2, src) := ReadOperand(m1, inst, w, source);
      ReadKeeps(m, inst, w, destination);
      ReadKeeps(m1, inst, w, source);
      var m3 := m2.(cpu := WithFlags(m2.cpu, FlagsAfter(op, m2.cpu.scalar.rflags, w, dst, src)));
      PutMemory(m3, inst, w, destination, Result(op, w, dst, src));
      var write := ToMemory(inst.memAddress, w as int / 8, Result(op, w, dst, src));
      OneWrite(m.mem, write);
      if Accessible(m3, inst.memAddress, write.size, Access.Write) {
        StoreReaches(m3, write);
      }
    }
  }

  lemma {:induction false} NoWrites(mem: Mem)
    ensures WriteAll(mem, []) == mem && ReachAll(mem, [])
    ensures SparesCode(mem, [])
  {
  }

  lemma {:induction false} StoreReaches(m: Machine, w: Write)
    requires Accessible(m, w.address, w.size, Access.Write) && w.size <= 8
    ensures Reaches(m.mem, w)
  {
    hide Accessible, Mapped;
    forall i: nat | i < w.size ensures Mapped(m.mem, Target(w, i)) {
      AccessibleMapped(m, w.address, w.size, Access.Write, i);
    }
  }

  lemma {:induction false} HandlerMemory(isa: Isa, stores: Stores, m: Machine, e: Entry)
    requires OthersStore(isa, stores)
    ensures RunHandler(isa, m, e).mem == WriteAll(m.mem, HandlerStores(stores, m, e))
            && ReachAll(m.mem, HandlerStores(stores, m, e))
  {
    hide Execute, AluStores, WriteAll, ReachAll, Decode, DecodedInst, ValidateOperand, LinearAddress, MemoryForm,
      Pending, OthersStore;
    NoWrites(m.mem);
    if OtherEntry(e) {
      UnfoldStore(isa, stores, m, e);
    } else if e.fast.Some? {
      var payload := e.fast.value.payload;
      var c := Stamped(m.cpu, payload);
      AluMemory(payload.op, m.(cpu := c), payload.inst);
      AluMemory(payload.op, m.(cpu := ValidateOperand(c, payload.inst, payload.length)),
                payload.inst.(memAddress := LinearAddress(c, payload.inst, payload.length)));
    } else if e.handler.Alu? {
      var op := e.handler.op;
      AluMemory(op, m.(cpu := Decode(op, m.cpu, e.bytes)), DecodedInst(op, m.cpu, e.bytes));
    }
  }

  lemma {:induction false} UnfoldStore(isa: Isa, stores: Stores, m: Machine, e: Entry)
    requires OthersStore(isa, stores) && OtherEntry(e)
    ensures RunHandler(isa, m, e).mem == WriteAll(m.mem, stores(m, e)) && ReachAll(m.mem, stores(m, e))
  {
    hide RunHandler, WriteAll, ReachAll, OtherEntry;
  }

  lemma {:induction false} ConcludeMemory(saved: Cpu, ran: Machine, e: Entry, guarded: bool, code: StepCode)
    ensures Conclude(saved, ran, e, guarded, code).0.mem == ran.mem
  {
    hide RollBack;
  }

  lemma {:induction false} EntryMemory(isa: Isa, stores: Stores, m: Machine, e: Entry)
    requires OthersStore(isa, stores)
    ensures RunDecoded(isa, m, e).0.mem == WriteAll(m.mem, EntryStores(stores, m, e))
            && ReachAll(m.mem, EntryStores(stores, m, e))
  {
    hide Conclude, Body, HandlerStores, WriteAll, ReachAll, OthersStore, RunHandler, WithOverride;
    NoWrites(m.mem);
    var s := m.(cpu := WithOverride(m.cpu, e.segmentOverride));
    ConcludeMemory(s.cpu, Body(isa, s, e), e, !e.noFault, StepOk);
    ConcludeMemory(s.cpu, s.(cpu := Raise(s.cpu, UD, 0)), e, false, StepUd);
    ConcludeMemory(s.cpu, s.(cpu := Raise(s.cpu, BP, 0)), e, false, StepException);
    ConcludeMemory(s.cpu, s.(cpu := Raise(s.cpu, DB, 0)), e, false, StepException);
    UnfoldBody(isa, s, e);
    AdvanceMemory(RunHandler(isa, s, e), s.cpu.scalar.rip, e.branch);
    HandlerMemory(isa, stores, s, e);
    BranchesKeepKey(s, e, if e.inline == JccShort then 2 else 6);
  }

  lemma {:induction false} AdvanceMemory(ran: Machine, from: u64, branch: bool)
    ensures Executor.Advance(ran, from, branch).mem == ran.mem
  {
  }

  lemma {:induction false} StepMemory(isa: Isa, stores: Stores, m: Machine)
    requires OthersStore(isa, stores) && Resting(m.cpu)
    requires !Pending(m.cpu) ==> WindowFetchable(m, m.cpu.scalar.rip)
    ensures Step(isa, m, [], []).machine.mem == WriteAll(m.mem, StepStores(isa, stores, m))
            && ReachAll(m.mem, StepStores(isa, stores, m))
  {
    hide *;
    NoWrites(m.mem);
    UnfoldStep(isa, m, [], []);
    UnfoldStepStores(isa, stores, m);
    if !Pending(m.cpu) {
      KeyedReady(m);
      var k := Keyed(m);
      UnfoldWindow(m, m.cpu.scalar.rip);
      UnfoldWindow(k, m.cpu.scalar.rip);
      UncachedStep(isa, m, []);
      MissDecodes(isa, k, [], []);
      EntryMemory(isa, stores, k, DecodeAt(isa, k.cpu, Window(m.mem, m.cpu.scalar.rip)));
    }
  }

  lemma {:induction false} UnfoldStepStores(isa: Isa, stores: Stores, m: Machine)
    ensures StepStores(isa, stores, m)
            == if Pending(m.cpu) then []
               else EntryStores(stores, Keyed(m), DecodeAt(isa, Keyed(m).cpu, Window(m.mem, m.cpu.scalar.rip)))
  {
    hide EntryStores, DecodeAt, Window, Keyed, Pending;
  }

  /** A step keeps the contract of the code version if and only if the stores it is about to make put, on code, what
      is there. */
  lemma {:induction false} StepKeepsCodeIff(isa: Isa, stores: Stores, m: Machine)
    requires OthersStore(isa, stores) && Resting(m.cpu) && Unaliased(m.mem)
    requires !Pending(m.cpu) ==> WindowFetchable(m, m.cpu.scalar.rip)
    ensures CodeKept(m.mem, Step(isa, m, [], []).machine.mem) <==> SparesCode(m.mem, StepStores(isa, stores, m))
    ensures SameMap(m.mem, Step(isa, m, [], []).machine.mem) && Unaliased(Step(isa, m, [], []).machine.mem)
  {
    hide *;
    StepMemory(isa, stores, m);
    StoresKeepCodeIff(m.mem, StepStores(isa, stores, m));
    NobodyMapped(m.mem, StepStores(isa, stores, m));
    SameReach(m.mem, Step(isa, m, [], []).machine.mem, ToMemory(0, 0, 0));
  }

  // Runs judged by their stores.

  /** The runs of Disciplined, with the promise about the memory after each instruction replaced by a check of the
      stores before it. */
  ghost predicate Sparing(isa: Isa, stores: Stores, m: Machine, past: set<Cpu>, events: seq<Event>)
    decreases |events|
  {
    events != [] ==>
      match events[0]
      case Instruction =>
        var after := Step(isa, m, [], []).machine;
        && (!Pending(m.cpu) ==> WindowFetchable(m, m.cpu.scalar.rip) && Settled(m, past))
        && SparesCode(m.mem, StepStores(isa, stores, m))
        && Sparing(isa, stores, after, Recalled(m.mem, after.mem, Visited(m, past)), events[1..])
      case Outside(effect) =>
        && CodeKept(m.mem, effect(m).mem) && Resting(effect(m).cpu) && Unaliased(effect(m).mem)
        && Sparing(isa, stores, effect(m), Recalled(m.mem, effect(m).mem, past), events[1..])
  }

  lemma {:induction false} UnfoldSparing(isa: Isa, stores: Stores, m: Machine, past: set<Cpu>, events: seq<Event>)
    requires Sparing(isa, stores, m, past, events) && events != []
    ensures events[0].Instruction? ==>
              var after := Step(isa, m, [], []).machine;
              (!Pending(m.cpu) ==> WindowFetchable(m, m.cpu.scalar.rip) && Settled(m, past))
              && SparesCode(m.mem, StepStores(isa, stores, m))
              && Sparing(isa, stores, after, Recalled(m.mem, after.mem, Visited(m, past)), events[1..])
    ensures events[0].Outside? ==>
              var after := events[0].effect(m);
              CodeKept(m.mem, after.mem) && Resting(after.cpu) && Unaliased(after.mem)
              && Sparing(isa, stores, after, Recalled(m.mem, after.mem, past), events[1..])
  {
    hide Step, SparesCode, StepStores, CodeKept, Resting, Unaliased, WindowFetchable, Pending, Settled, Recalled,
      Visited;
  }

  lemma {:induction false} FoldDisciplined(isa: Isa, m: Machine, past: set<Cpu>, events: seq<Event>)
    requires events != []
    requires events[0].Instruction? ==>
               var after := Step(isa, m, [], []).machine;
               (!Pending(m.cpu) ==> WindowFetchable(m, m.cpu.scalar.rip) && Settled(m, past))
               && CodeKept(m.mem, after.mem)
               && Disciplined(isa, after, Recalled(m.mem, after.mem, Visited(m, past)), events[1..])
    requires events[0].Outside? ==>
               var after := events[0].effect(m);
               CodeKept(m.mem, after.mem) && Resting(after.cpu)
               && Disciplined(isa, after, Recalled(m.mem, after.mem, past), events[1..])
    ensures Disciplined(isa, m, past, events)
  {
    hide Step, CodeKept, Resting, WindowFetchable, Pending, Settled, Recalled, Visited;
  }

  lemma {:induction false} EmptyDisciplined(isa: Isa, m: Machine, past: set<Cpu>)
    ensures Disciplined(isa, m, past, [])
  {
  }

  lemma {:induction false} SparingIsDisciplined(isa: Isa, stores: Stores, m: Machine, past: set<Cpu>,
                                                events: seq<Event>)
    requires Civil(isa) && OthersStore(isa, stores) && Resting(m.cpu) && Unaliased(m.mem)
    requires Sparing(isa, stores, m, past, events)
    ensures Disciplined(isa, m, past, events)
    decreases |events|
  {
    hide *;
    EmptyDisciplined(isa, m, past);
    if events != [] {
      UnfoldSparing(isa, stores, m, past, events);
      match events[0] {
      case Instruction =>
        StepKeepsCodeIff(isa, stores, m);
        StepResting(isa, m, []);
        var after := Step(isa, m, [], []).machine;
        SparingIsDisciplined(isa, stores, after, Recalled(m.mem, after.mem, Visited(m, past)), events[1..]);
      case Outside(effect) =>
        SparingIsDisciplined(isa, stores, effect(m), Recalled(m.mem, effect(m).mem, past), events[1..]);
      }
      FoldDisciplined(isa, m, past, events);
    }
  }

  /** Cache transparency from the stores: if no instruction is about to change a code byte, the cached run is the
      uncached one. */
  lemma {:induction false} SparingRunsTransparent(isa: Isa, stores: Stores, m: Machine, past: set<Cpu>,
                                                  slots: seq<Slot>, events: seq<Event>)
    requires WellBehaved(isa) && OthersStore(isa, stores) && Resting(m.cpu) && Unaliased(m.mem)
             && Sound(isa, m.mem, past, slots)
    requires Sparing(isa, stores, m, past, events)
    ensures var cached, plain := RunEvents(isa, m, slots, events), RunEvents(isa, m, [], events);
            cached.machine == plain.machine && cached.codes == plain.codes
                && Sound(isa, plain.machine.mem, Passed(isa, m, past, events), cached.slots)
  {
    hide *;
    BehavedReplays(isa);
    SparingIsDisciplined(isa, stores, m, past, events);
    RunTransparent(isa, m, past, slots, events);
  }
}
