/** Guest memory access by linear address: a byte view, and the multi-byte accessors that refine it. */
module LinearMemory {
  import opened Bits
  import opened MemoryManagement
  import opened CpuState

  // The byte view.

  datatype Fault = NoFault | NonCanonical | PageFault(protection: bool)

  /** What is wrong with a one-byte access, if anything. */
  function FaultAt(m: Machine, address: u64, access: Access): Fault {
    if Is64BitCode(m.cpu) && !Canonical(address) then NonCanonical
    else
      match Lookup(m.mem, address, access)
      case Unmapped => PageFault(false)
      case Prot => PageFault(true)
      case Granted(_, user) => if m.cpu.scalar.cpl == 3 && !user then PageFault(true) else NoFault
  }

  function PageFaultError(c: Cpu, access: Access, protection: bool): nat {
    BoolBit(protection) + (if access == Write then 2 else 0) +
    (if c.scalar.cpl == 3 then 4 else 0) + (if access == Exec then 0x10 else 0)
  }

  function RaiseFault(c: Cpu, address: u64, access: Access, fault: Fault): Cpu {
    match fault
    case NoFault => c
    case NonCanonical => Raise(c, GP, 0)
    case PageFault(protection) =>
      Raise(c.(scalar := c.scalar.(controlRegs := c.scalar.controlRegs[CR2 := address])), PF,
            PageFaultError(c, access, protection))
  }

  function Ptr(mem: Mem, address: u64): nat {
    if address / PAGE in mem.pages then Pointer(mem, address) else 0
  }

  function ByteAt(mem: Mem, address: u64): byte {
    HostByte(mem, Ptr(mem, address))
  }

  function ByteFault(m: Machine, address: u64, i: nat, access: Access): Fault {
    FaultAt(m, Wrap(address + i), access)
  }

  /** The number of leading bytes of the access that are free of faults. */
  function FirstFault(m: Machine, address: u64, n: nat, access: Access): (k: nat)
    ensures k <= n
    ensures forall i: nat :: i < k ==> ByteFault(m, address, i, access) == NoFault
    ensures k < n ==> ByteFault(m, address, k, access) != NoFault
    decreases n
  {
    if n == 0 then 0
    else
      var k := FirstFault(m, address, n - 1, access);
      if k < n - 1 || ByteFault(m, address, k, access) != NoFault then k else n
  }

  function Pointers(mem: Mem, address: u64, n: nat): (ps: seq<nat>)
    ensures |ps| == n
    ensures forall i :: 0 <= i < n ==> ps[i] == Ptr(mem, Wrap(address + i))
    decreases n
  {
    if n == 0 then [] else Pointers(mem, address, n - 1) + [Ptr(mem, Wrap(address + (n - 1)))]
  }

  function BytesAt(mem: Mem, address: u64, n: nat): (bs: seq<byte>)
    ensures |bs| == n
    ensures forall i :: 0 <= i < n ==> bs[i] == ByteAt(mem, Wrap(address + i))
    decreases n
  {
    if n == 0 then [] else BytesAt(mem, address, n - 1) + [ByteAt(mem, Wrap(address + (n - 1)))]
  }

  function Put(host: map<nat, byte>, ptrs: seq<nat>, bs: seq<byte>): map<nat, byte>
    requires |ptrs| == |bs|
    decreases |bs|
  {
    if bs == [] then host else Put(host[ptrs[0] := bs[0]], ptrs[1..], bs[1..])
  }

  /** The machine after the fault of the lowest byte that has one, or unchanged when none has. */
  function Checked(m: Machine, address: u64, n: nat, access: Access): Machine {
    var k := FirstFault(m, address, n, access);
    if Pending(m.cpu) || k == n then m
    else m.(cpu := RaiseFault(m.cpu, Wrap(address + k), access, FaultAt(m, Wrap(address + k), access)))
  }

  predicate Accessible(m: Machine, address: u64, n: nat, access: Access) {
    !Pending(m.cpu) && FirstFault(m, address, n, access) == n
  }

  /** An n-byte read: the little-endian value of its bytes, or 0 and the first fault. */
  function LoadValue(m: Machine, address: u64, n: nat): nat {
    if Accessible(m, address, n, Read) then LittleEndian(BytesAt(m.mem, address, n)) else 0
  }

  function StoreBytes(mem: Mem, address: u64, bs: seq<byte>): Mem {
    mem.(host := Put(mem.host, Pointers(mem, address, |bs|), bs))
  }

  /** An n-byte write: all bytes change, or none and the first fault is raised. */
  function Store(m: Machine, address: u64, n: nat, value: nat): Machine {
    if Accessible(m, address, n, Write) then m.(mem := StoreBytes(m.mem, address, Bytes(value, n)))
    else Checked(m, address, n, Write)
  }

  // Facts about the byte view.

  lemma {:induction false} FirstFaultIs(m: Machine, address: u64, n: nat, access: Access, k: nat)
    requires k <= n
    requires forall i: nat :: i < k ==> ByteFault(m, address, i, access) == NoFault
    requires k < n ==> ByteFault(m, address, k, access) != NoFault
    ensures FirstFault(m, address, n, access) == k
  {
    hide *;
    var f := FirstFault(m, address, n, access);
  }

  lemma {:induction false} WrapStep(address: u64, i: nat, j: nat)
    ensures Wrap(Wrap(address + i) + j) == Wrap(address + (i + j))
  {
  }

  lemma {:induction false} InPage(address: u64, i: nat)
    requires address % PAGE + i < PAGE
    ensures address + i < WORD && Wrap(address + i) == address + i
    ensures (address + i) / PAGE == address / PAGE && (address + i) % PAGE == address % PAGE + i
    ensures Canonical(address + i) == Canonical(address)
  {
    CanonicalRange(address);
    CanonicalRange(address + i);
  }

  /** Without patches, one resolved byte answers for the rest of its page. */
  lemma {:induction false} SamePage(m: Machine, address: u64, i: nat, access: Access)
    requires m.mem.patches == [] && address % PAGE + i < PAGE
    ensures FaultAt(m, Wrap(address + i), access) == FaultAt(m, address, access)
    ensures address / PAGE in m.mem.pages ==> Ptr(m.mem, Wrap(address + i)) == Ptr(m.mem, address) + i
  {
    InPage(address, i);
  }

  // The accessors.

  method Resolve(ctx: CpuContext, address: u64, access: Access) returns (ptr: Option<nat>)
    modifies ctx`scalar, ctx`exception
    ensures old(Pending(ctx.State())) ==> ptr == None && ctx.State() == old(ctx.State())
    ensures !old(Pending(ctx.State())) ==>
              var f := FaultAt(old(ctx.Whole()), address, access);
              && (f == NoFault ==> ptr == Some(Ptr(ctx.memMgr.View(), address)) && ctx.State() == old(ctx.State()))
              && (f != NoFault ==> ptr == None && ctx.State() == RaiseFault(old(ctx.State()), address, access, f))
  {
    if ctx.exception.code != NoException {
      return None;
    }
    if Is64BitCode(ctx.State()) && !Canonical(address) {
      ctx.RaiseException(GP, 0);
      return None;
    }
    var status := ctx.memMgr.GetPtrChecked(address, access);
    match status
    case Unmapped =>
      RaisePageFault(ctx, address, access, false);
      return None;
    case Prot =>
      RaisePageFault(ctx, address, access, true);
      return None;
    case Granted(p, user) =>
      if ctx.scalar.cpl == 3 && !user {
        RaisePageFault(ctx, address, access, true);
        return None;
      }
      return Some(p);
  }

  method RaisePageFault(ctx: CpuContext, address: u64, access: Access, protection: bool)
    modifies ctx`scalar, ctx`exception
    ensures ctx.State() == RaiseFault(old(ctx.State()), address, access, PageFault(protection))
  {
    ctx.scalar := ctx.scalar.(controlRegs := ctx.scalar.controlRegs[CR2 := address]);
    ctx.RaiseException(PF, PageFaultError(ctx.State(), access, protection));
  }

  /** What a multi-byte resolution must leave behind: the first fault, if any byte has one. */
  ghost predicate Raised(before: Machine, after: Cpu, address: u64, n: nat, access: Access) {
    var k := FirstFault(before, address, n, access);
    && !Pending(before.cpu)
    && k < n
    && after == RaiseFault(before.cpu, Wrap(address + k), access, ByteFault(before, address, k, access))
  }

  lemma {:induction false} RaisedIsChecked(before: Machine, after: Cpu, address: u64, n: nat, access: Access)
    requires Raised(before, after, address, n, access)
    ensures before.(cpu := after) == Checked(before, address, n, access) && Pending(after)
  {
  }

  lemma {:induction false} RaisedAt(before: Machine, after: Cpu, address: u64, n: nat, access: Access, k: nat)
    requires !Pending(before.cpu) && k < n
    requires forall i: nat :: i < k ==> ByteFault(before, address, i, access) == NoFault
    requires ByteFault(before, address, k, access) != NoFault
    requires after == RaiseFault(before.cpu, Wrap(address + k), access, ByteFault(before, address, k, access))
    ensures Raised(before, after, address, n, access)
  {
    FirstFaultIs(before, address, n, access, k);
  }

  /** The bytes of the access lie at consecutive host addresses from base on. */
  ghost predicate Contiguous(m: Machine, address: u64, n: nat, access: Access, base: nat) {
    forall i: nat :: i < n ==>
      ByteFault(m, address, i, access) == NoFault && Ptr(m.mem, Wrap(address + i)) == base + i
  }

  lemma {:induction false} PageChunk(m: Machine, address: u64, offset: nat, chunk: nat, access: Access, base: nat)
    requires m.mem.patches == []
    requires Wrap(address + offset) % PAGE + chunk <= PAGE
    requires ByteFault(m, address, offset, access) == NoFault
    requires Contiguous(m, address, offset, access, base)
    requires Ptr(m.mem, Wrap(address + offset)) == base + offset
    ensures Contiguous(m, address, offset + chunk, access, base)
  {
    forall i: nat | i < offset + chunk
      ensures ByteFault(m, address, i, access) == NoFault && Ptr(m.mem, Wrap(address + i)) == base + i
    {
      if i >= offset {
        WrapStep(address, offset, i - offset);
        GrantedPage(m, Wrap(address + offset), access);
        SamePage(m, Wrap(address + offset), i - offset, access);
      }
    }
  }

  lemma {:induction false} GrantedPage(m: Machine, address: u64, access: Access)
    requires FaultAt(m, address, access) == NoFault
    ensures address / PAGE in m.mem.pages
  {
  }

  /** Byte k is the first that is out of line: it can be accessed, but does not lie behind those before it. */
  ghost predicate SplitsAt(m: Machine, address: u64, n: nat, access: Access, k: nat) {
    && 0 < k < n && Contiguous(m, address, k, access, Ptr(m.mem, address))
    && ByteFault(m, address, k, access) == NoFault && Ptr(m.mem, Wrap(address + k)) != Ptr(m.mem, address) + k
  }

  /** What a request for one host pointer to n bytes leaves behind: the pointer when they are in line, else the first
      fault, or, at the first byte out of line, #PF if asked to fault on a split and nothing if not. */
  ghost predicate PtrOutcome(
    before: Machine, after: Cpu, address: u64, n: nat, access: Access, faultOnSplit: bool, ptr: Option<nat>)
  {
    && (ptr.Some? ==> !Pending(before.cpu) && after == before.cpu && Contiguous(before, address, n, access, ptr.value))
    && (ptr.None? && Pending(before.cpu) ==> after == before.cpu)
    && (ptr.None? && !Pending(before.cpu) ==>
          Raised(before, after, address, n, access) || SplitFault(before, after, address, n, access, faultOnSplit))
  }

  ghost predicate SplitFault(before: Machine, after: Cpu, address: u64, n: nat, access: Access, faultOnSplit: bool) {
    exists k: nat ::
      SplitsAt(before, address, n, access, k)
      && after == if faultOnSplit then RaiseFault(before.cpu, Wrap(address + k), access, PageFault(true))
         else before.cpu
  }

  /** There is a pointer exactly when every byte can be accessed and all lie in line. */
  lemma {:induction false} PointerIffContiguous(
    before: Machine, after: Cpu, address: u64, n: nat, access: Access, faultOnSplit: bool, ptr: Option<nat>)
    requires PtrOutcome(before, after, address, n, access, faultOnSplit, ptr) && !Pending(before.cpu) && n > 0
    ensures ptr.Some? <==> exists base: nat :: Contiguous(before, address, n, access, base)
  {
    hide FaultAt, Ptr, RaiseFault, FirstFault;
    if base: nat :| Contiguous(before, address, n, access, base) {
      FirstFaultIs(before, address, n, access, n);
      FirstInLine(before, address, n, access, base);
    }
  }

  lemma {:induction false} FirstInLine(m: Machine, address: u64, n: nat, access: Access, base: nat)
    requires Contiguous(m, address, n, access, base) && n > 0
    ensures Ptr(m.mem, address) == base
  {
    hide FaultAt, Ptr;
    assert ByteFault(m, address, 0, access) == NoFault;
    assert Wrap(address + 0) == address;
  }

  lemma {:induction false} PtrGranted(
    before: Machine, address: u64, n: nat, access: Access, faultOnSplit: bool, base: nat)
    requires !Pending(before.cpu) && Contiguous(before, address, n, access, base)
    ensures PtrOutcome(before, before.cpu, address, n, access, faultOnSplit, Some(base))
  {
    hide Contiguous, Raised, SplitFault;
  }

  lemma {:induction false} PtrFault(
    before: Machine, after: Cpu, address: u64, n: nat, access: Access, faultOnSplit: bool, k: nat, base: nat)
    requires !Pending(before.cpu) && k < n
    requires Contiguous(before, address, k, access, base)
    requires ByteFault(before, address, k, access) != NoFault
    requires after == RaiseFault(before.cpu, Wrap(address + k), access, FaultAt(before, Wrap(address + k), access))
    ensures PtrOutcome(before, after, address, n, access, faultOnSplit, None)
  {
    hide FaultAt, RaiseFault, FirstFault, Raised, SplitFault;
    RaisedAt(before, after, address, n, access, k);
  }

  lemma {:induction false} PtrSplit(
    before: Machine, after: Cpu, address: u64, n: nat, access: Access, faultOnSplit: bool, k: nat, base: nat)
    requires !Pending(before.cpu) && 0 < k < n && Contiguous(before, address, k, access, base)
    requires ByteFault(before, address, k, access) == NoFault && Ptr(before.mem, Wrap(address + k)) != base + k
    requires after == if faultOnSplit then RaiseFault(before.cpu, Wrap(address + k), access, PageFault(true))
             else before.cpu
    ensures PtrOutcome(before, after, address, n, access, faultOnSplit, None)
  {
    hide FaultAt, RaiseFault, FirstFault, Raised, Contiguous, Ptr;
    FirstInLine(before, address, k, access, base);
    assert SplitsAt(before, address, n, access, k);
  }

  lemma {:induction false} PtrPending(before: Machine, address: u64, n: nat, access: Access, faultOnSplit: bool)
    requires Pending(before.cpu)
    ensures PtrOutcome(before, before.cpu, address, n, access, faultOnSplit, None)
  {
  }

  lemma {:induction false} ExtendByte(m: Machine, address: u64, offset: nat, access: Access, base: nat)
    requires Contiguous(m, address, offset, access, base)
    requires ByteFault(m, address, offset, access) == NoFault && Ptr(m.mem, Wrap(address + offset)) == base + offset
    ensures Contiguous(m, address, offset + 1, access, base)
  {
    hide FaultAt, Ptr;
  }

  lemma {:induction false} UnfoldByteFault(m: Machine, address: u64, i: nat, access: Access)
    ensures ByteFault(m, address, i, access) == FaultAt(m, Wrap(address + i), access)
  {
    hide FaultAt;
  }

  lemma {:induction false} UnfoldPending(c: Cpu)
    ensures Pending(c) == (c.exception.code != NoException)
  {
  }

  lemma {:induction false} ContiguousEmpty(m: Machine, address: u64, access: Access, base: nat)
    ensures Contiguous(m, address, 0, access, base)
    ensures Wrap(address + 0) == address
  {
  }

  lemma {:induction false} PageRest(address: u64)
    ensures 0 <= address % 0x1000 < 0x1000 && PAGE == 0x1000
  {
  }

  /** One resolution a page, when no patch can interrupt a page. */
  method GetPtrByPages(ctx: CpuContext, address: u64, n: nat, access: Access, faultOnSplit: bool)
    returns (ptr: Option<nat>)
    requires n > 0 && !Pending(ctx.State()) && ctx.memMgr.patches == []
    modifies ctx`scalar, ctx`exception
    ensures PtrOutcome(old(ctx.Whole()), ctx.State(), address, n, access, faultOnSplit, ptr)
  {
    hide FaultAt, Contiguous, Ptr, ByteFault, RaiseFault, PtrOutcome, Wrap, Pending;
    ghost var m := ctx.Whole();
    var base, offset := 0, 0;
    ContiguousEmpty(m, address, access, 0);
    while offset < n
      invariant 0 <= offset <= n && base >= 0
      invariant ctx.State() == m.cpu
      invariant Contiguous(m, address, offset, access, base)
      decreases n - offset
    {
      var current := Wrap(address + offset);
      UnfoldByteFault(m, address, offset, access);
      var pagePtr := Resolve(ctx, current, access);
      if pagePtr == None {
        PtrFault(m, ctx.State(), address, n, access, faultOnSplit, offset, base);
        return None;
      }
      if offset == 0 {
        base := pagePtr.value;
        ContiguousEmpty(m, address, access, base);
      } else if pagePtr.value != base + offset {
        if faultOnSplit {
          RaisePageFault(ctx, current, access, true);
        }
        PtrSplit(m, ctx.State(), address, n, access, faultOnSplit, offset, base);
        return None;
      }
      PageRest(current);
      var chunk := if PAGE - current % PAGE < n - offset then PAGE - current % PAGE else n - offset;
      PageChunk(m, address, offset, chunk, access, base);
      offset := offset + chunk;
    }
    PtrGranted(m, address, n, access, faultOnSplit, base);
    return Some(base);
  }

  /** One resolution a byte, since a patch can redirect any of them. */
  method GetPtrByBytes(ctx: CpuContext, address: u64, n: nat, access: Access, faultOnSplit: bool)
    returns (ptr: Option<nat>)
    requires n > 0 && !Pending(ctx.State())
    modifies ctx`scalar, ctx`exception
    ensures PtrOutcome(old(ctx.Whole()), ctx.State(), address, n, access, faultOnSplit, ptr)
  {
    hide FaultAt, Contiguous, Ptr, ByteFault, RaiseFault, PtrOutcome, Wrap, Pending;
    ghost var m := ctx.Whole();
    UnfoldByteFault(m, address, 0, access);
    ContiguousEmpty(m, address, access, 0);
    ptr := Resolve(ctx, address, access);
    if ptr == None {
      PtrFault(m, ctx.State(), address, n, access, faultOnSplit, 0, 0);
      return;
    }
    var base := ptr.value;
    ContiguousEmpty(m, address, access, base);
    ExtendByte(m, address, 0, access, base);
    var offset := 1;
    while offset < n
      invariant 1 <= offset <= n
      invariant ctx.State() == m.cpu
      invariant Contiguous(m, address, offset, access, base)
    {
      UnfoldByteFault(m, address, offset, access);
      var next := Resolve(ctx, Wrap(address + offset), access);
      if next == None {
        PtrFault(m, ctx.State(), address, n, access, faultOnSplit, offset, base);
        return None;
      }
      if next.value != base + offset {
        if faultOnSplit {
          RaisePageFault(ctx, Wrap(address + offset), access, true);
        }
        PtrSplit(m, ctx.State(), address, n, access, faultOnSplit, offset, base);
        return None;
      }
      ExtendByte(m, address, offset, access, base);
      offset := offset + 1;
    }
    PtrGranted(m, address, n, access, faultOnSplit, base);
    return Some(base);
  }

  /** A host pointer to n consecutive bytes: one check for a single page without patches, one check a
      page for several, one check a byte with patches. */
  method GetContiguousPtr(ctx: CpuContext, address: u64, n: nat, access: Access, faultOnSplit: bool)
    returns (ptr: Option<nat>)
    requires n > 0
    modifies ctx`scalar, ctx`exception
    ensures PtrOutcome(old(ctx.Whole()), ctx.State(), address, n, access, faultOnSplit, ptr)
  {
    hide FaultAt, Contiguous, Ptr, ByteFault, RaiseFault, PtrOutcome, Wrap, Pending;
    UnfoldPending(ctx.State());
    ghost var m := ctx.Whole();
    if ctx.exception.code != NoException {
      PtrPending(m, address, n, access, faultOnSplit);
      return None;
    }
    if |ctx.memMgr.patches| != 0 {
      ptr := GetPtrByBytes(ctx, address, n, access, faultOnSplit);
    } else if PAGE - address % PAGE < n {
      ptr := GetPtrByPages(ctx, address, n, access, faultOnSplit);
    } else {
      UnfoldByteFault(m, address, 0, access);
      ContiguousEmpty(m, address, access, 0);
      ptr := Resolve(ctx, address, access);
      if ptr == None {
        PtrFault(m, ctx.State(), address, n, access, faultOnSplit, 0, 0);
      } else {
        ContiguousEmpty(m, address, access, ptr.value);
        PageChunk(m, address, 0, n, access, ptr.value);
        PtrGranted(m, address, n, access, faultOnSplit, ptr.value);
      }
    }
  }

  // Reading and writing values.

  /** The host bytes at ptr, ptr + 1, ... */
  function HostBytes(mem: Mem, ptr: nat, n: nat): (bs: seq<byte>)
    ensures |bs| == n
    decreases n
  {
    if n == 0 then [] else HostBytes(mem, ptr, n - 1) + [HostByte(mem, ptr + (n - 1))]
  }

  function Consecutive(ptr: nat, n: nat): (ps: seq<nat>)
    ensures |ps| == n
    ensures forall i :: 0 <= i < n ==> ps[i] == ptr + i
    decreases n
  {
    if n == 0 then [] else Consecutive(ptr, n - 1) + [ptr + (n - 1)]
  }

  lemma {:induction false} ContiguousBytes(m: Machine, address: u64, n: nat, access: Access, base: nat)
    requires Contiguous(m, address, n, access, base)
    ensures HostBytes(m.mem, base, n) == BytesAt(m.mem, address, n)
    ensures Pointers(m.mem, address, n) == Consecutive(base, n)
    ensures FirstFault(m, address, n, access) == n
    decreases n
  {
    FirstFaultIs(m, address, n, access, n);
    if n > 0 {
      ContiguousBytes(m, address, n - 1, access, base);
      assert ByteFault(m, address, n - 1, access) == NoFault;
    }
  }

  lemma {:induction false} UnfoldBytesAt(mem: Mem, address: u64, n: nat)
    ensures BytesAt(mem, address, 0) == [] && Pointers(mem, address, 0) == []
    ensures BytesAt(mem, address, n + 1) == BytesAt(mem, address, n) + [HostByte(mem, Ptr(mem, Wrap(address + n)))]
    ensures Pointers(mem, address, n + 1) == Pointers(mem, address, n) + [Ptr(mem, Wrap(address + n))]
  {
    hide Ptr, HostByte, Wrap;
  }

  lemma {:induction false} CheckedFault(before: Machine, after: Cpu, address: u64, n: nat, access: Access, k: nat)
    requires !Pending(before.cpu) && k < n
    requires FirstFault(before, address, k, access) == k
    requires ByteFault(before, address, k, access) != NoFault
    requires after == RaiseFault(before.cpu, Wrap(address + k), access, FaultAt(before, Wrap(address + k), access))
    ensures before.(cpu := after) == Checked(before, address, n, access) && Pending(after)
    ensures !Accessible(before, address, n, access)
  {
    hide FaultAt, RaiseFault, FirstFault, Checked, Raised;
    UnfoldByteFault(before, address, k, access);
    RaisedAt(before, after, address, n, access, k);
    RaisedIsChecked(before, after, address, n, access);
    RaisedBlocks(before, after, address, n, access);
  }

  lemma {:induction false} RaisedBlocks(before: Machine, after: Cpu, address: u64, n: nat, access: Access)
    requires Raised(before, after, address, n, access)
    ensures !Accessible(before, address, n, access)
  {
  }

  lemma {:induction false} FirstFaultExtend(m: Machine, address: u64, k: nat, access: Access)
    requires FirstFault(m, address, k, access) == k
    requires ByteFault(m, address, k, access) == NoFault
    ensures FirstFault(m, address, k + 1, access) == k + 1
  {
    hide ByteFault;
    FirstFaultIs(m, address, k + 1, access, k + 1);
  }

  lemma {:induction false} FirstFaultEmpty(m: Machine, address: u64, access: Access)
    ensures FirstFault(m, address, 0, access) == 0
  {
  }

  lemma {:induction false} PendingBlocks(m: Machine, address: u64, n: nat, value: nat, access: Access)
    requires Pending(m.cpu)
    ensures Checked(m, address, n, access) == m && LoadValue(m, address, n) == 0
    ensures Store(m, address, n, value) == m
    ensures !Accessible(m, address, n, access)
  {
  }

  lemma {:induction false} NotLoaded(m: Machine, address: u64, n: nat, value: nat)
    ensures !Accessible(m, address, n, Read) ==> LoadValue(m, address, n) == 0
    ensures !Accessible(m, address, n, Write) ==> Store(m, address, n, value) == Checked(m, address, n, Write)
  {
    hide Accessible, Checked;
  }

  lemma {:induction false} Loaded(m: Machine, address: u64, n: nat, value: nat, access: Access)
    requires !Pending(m.cpu) && FirstFault(m, address, n, access) == n
    ensures Checked(m, address, n, access) == m && Accessible(m, address, n, access)
    ensures access == Read ==> LoadValue(m, address, n) == LittleEndian(BytesAt(m.mem, address, n))
    ensures access == Write ==>
              Store(m, address, n, value)
                  == m.(mem := m.mem.(host := Put(m.mem.host, Pointers(m.mem, address, n), Bytes(value, n))))
  {
    hide LittleEndian, BytesAt, Put, Pointers, FirstFault, Bytes;
  }

  /** What a contiguous pointer request leaves for the accessor that asked for it. */
  lemma {:induction false} AfterPtr(
    before: Machine, after: Cpu, address: u64, n: nat, access: Access, ptr: Option<nat>)
    requires PtrOutcome(before, after, address, n, access, false, ptr) && !Pending(before.cpu)
    ensures after == before.cpu || (before.(cpu := after) == Checked(before, address, n, access) && Pending(after)
                                    && !Accessible(before, address, n, access))
    ensures ptr.Some? ==> after == before.cpu && Contiguous(before, address, n, access, ptr.value)
  {
    hide Raised, Contiguous, Accessible, Checked, SplitsAt;
    if after != before.cpu {
      assert Raised(before, after, address, n, access);
      RaisedIsChecked(before, after, address, n, access);
      RaisedBlocks(before, after, address, n, access);
    }
  }

  method ReadHostBytes(mgr: MemoryManager, ptr: nat, n: nat) returns (bs: seq<byte>)
    ensures bs == HostBytes(mgr.View(), ptr, n)
  {
    bs := [];
    var offset := 0;
    while offset < n
      invariant 0 <= offset <= n
      invariant bs == HostBytes(mgr.View(), ptr, offset)
    {
      bs := bs + [HostByte(mgr.View(), ptr + offset)];
      offset := offset + 1;
    }
  }

  method ReadMemoryByte(ctx: CpuContext, address: u64) returns (value: byte)
    modifies ctx`scalar, ctx`exception
    ensures ctx.Whole() == Checked(old(ctx.Whole()), address, 1, Read)
    ensures value == LoadValue(old(ctx.Whole()), address, 1)
  {
    hide *;
    ghost var m := ctx.Whole();
    UnfoldWhole(ctx);
    UnfoldPending(m.cpu);
    FirstFaultEmpty(m, address, Read);
    UnfoldByteFault(m, address, 0, Read);
    ContiguousEmpty(m, address, Read, 0);
    var ptr := Resolve(ctx, address, Read);
    if ptr == None {
      if Pending(m.cpu) {
        PendingBlocks(m, address, 1, 0, Read);
      } else {
        CheckedFault(m, ctx.State(), address, 1, Read, 0);
        NotLoaded(m, address, 1, 0);
      }
      UnfoldWhole(ctx);
      return 0;
    }
    FirstFaultExtend(m, address, 0, Read);
    UnfoldBytesAt(m.mem, address, 0);
    Loaded(m, address, 1, 0, Read);
    value := HostByte(ctx.memMgr.View(), ptr.value);
    UnfoldWhole(ctx);
    OneByte(value);
  }

  lemma {:induction false} UnfoldWhole(ctx: CpuContext)
    ensures ctx.Whole() == Machine(ctx.State(), ctx.memMgr.View())
    ensures ctx.State().exception == ctx.exception && ctx.State().scalar == ctx.scalar
    ensures ctx.memMgr.View().host == ctx.memMgr.host
  {
  }

  lemma {:induction false} OneByte(b: byte)
    ensures LittleEndian([b]) == b
    ensures [] + [b] == [b]
  {
  }

  /** read_memory_word, _dword and _qword: one contiguous pointer when there is one, else byte by byte. */
  method ReadMemory(ctx: CpuContext, address: u64, n: nat) returns (value: nat)
    requires n == 2 || n == 4 || n == 8
    modifies ctx`scalar, ctx`exception
    ensures ctx.Whole() == Checked(old(ctx.Whole()), address, n, Read)
    ensures value == LoadValue(old(ctx.Whole()), address, n)
  {
    hide *;
    ghost var m := ctx.Whole();
    UnfoldWhole(ctx);
    UnfoldPending(m.cpu);
    if ctx.exception.code != NoException {
      PendingBlocks(m, address, n, 0, Read);
      return 0;
    }
    NotLoaded(m, address, n, 0);
    var ptr := GetContiguousPtr(ctx, address, n, Read, false);
    UnfoldWhole(ctx);
    AfterPtr(m, ctx.State(), address, n, Read, ptr);
    if ptr.Some? {
      ContiguousBytes(m, address, n, Read, ptr.value);
      Loaded(m, address, n, 0, Read);
      var bytes := ReadHostBytes(ctx.memMgr, ptr.value, n);
      return LittleEndian(bytes);
    }
    var bytes: seq<byte>, offset := [], 0;
    FirstFaultEmpty(m, address, Read);
    UnfoldBytesAt(m.mem, address, 0);
    while offset < n
      invariant 0 <= offset <= n
      invariant ctx.Whole() == Machine(ctx.State(), m.mem)
      invariant ctx.State() == m.cpu
                || (offset == 0 && ctx.Whole() == Checked(m, address, n, Read) && Pending(ctx.State())
                    && !Accessible(m, address, n, Read))
      invariant bytes == BytesAt(m.mem, address, offset)
      invariant FirstFault(m, address, offset, Read) == offset
    {
      UnfoldByteFault(m, address, offset, Read);
      ghost var before := ctx.State();
      var bytePtr := Resolve(ctx, Wrap(address + offset), Read);
      UnfoldWhole(ctx);
      if bytePtr == None {
        if before == m.cpu {
          CheckedFault(m, ctx.State(), address, n, Read, offset);
        }
        return 0;
      }
      FirstFaultExtend(m, address, offset, Read);
      UnfoldBytesAt(m.mem, address, offset);
      bytes := bytes + [HostByte(ctx.memMgr.View(), bytePtr.value)];
      offset := offset + 1;
    }
    Loaded(m, address, n, 0, Read);
    value := LittleEndian(bytes);
  }

  lemma {:induction false} PutStep(host: map<nat, byte>, ptrs: seq<nat>, bs: seq<byte>, k: nat)
    requires |ptrs| == |bs| && k < |bs|
    ensures Put(host, ptrs[..k + 1], bs[..k + 1]) == Put(host, ptrs[..k], bs[..k])[ptrs[k] := bs[k]]
    ensures Put(host, ptrs[..0], bs[..0]) == host
    ensures ptrs[..|ptrs|] == ptrs && bs[..|bs|] == bs
    decreases k
  {
    if k > 0 {
      PutStep(host[ptrs[0] := bs[0]], ptrs[1..], bs[1..], k - 1);
      assert ptrs[..k + 1][1..] == ptrs[1..][..k] && bs[..k + 1][1..] == bs[1..][..k];
      assert ptrs[..k][1..] == ptrs[1..][..k - 1] && bs[..k][1..] == bs[1..][..k - 1];
    } else {
      assert ptrs[..1][1..] == [] && bs[..1][1..] == [];
    }
  }

  /** The bytes of a resolved write, one pointer each. */
  method CommitBytes(mgr: MemoryManager, ptrs: seq<nat>, bs: seq<byte>)
    requires |ptrs| == |bs|
    modifies mgr`host
    ensures mgr.View() == old(mgr.View()).(host := Put(old(mgr.host), ptrs, bs))
  {
    var i := 0;
    PutEmpty(mgr.host, ptrs, bs);
    while i < |bs|
      invariant 0 <= i <= |bs|
      invariant mgr.host == Put(old(mgr.host), ptrs[..i], bs[..i])
    {
      PutStep(old(mgr.host), ptrs, bs, i);
      mgr.WriteHost(ptrs[i], bs[i]);
      i := i + 1;
    }
  }

  lemma {:induction false} PutEmpty(host: map<nat, byte>, ptrs: seq<nat>, bs: seq<byte>)
    requires |ptrs| == |bs|
    ensures Put(host, ptrs[..0], bs[..0]) == host
    ensures ptrs[..|ptrs|] == ptrs && bs[..|bs|] == bs
  {
  }

  method WriteMemoryByte(ctx: CpuContext, address: u64, value: byte)
    modifies ctx`scalar, ctx`exception, ctx.memMgr`host
    ensures ctx.Whole() == Store(old(ctx.Whole()), address, 1, value)
  {
    hide *;
    ghost var m := ctx.Whole();
    UnfoldWhole(ctx);
    UnfoldPending(m.cpu);
    FirstFaultEmpty(m, address, Write);
    UnfoldByteFault(m, address, 0, Write);
    ContiguousEmpty(m, address, Write, 0);
    NotLoaded(m, address, 1, value);
    var ptr := Resolve(ctx, address, Write);
    UnfoldWhole(ctx);
    if ptr == None {
      if Pending(m.cpu) {
        PendingBlocks(m, address, 1, value, Write);
      } else {
        CheckedFault(m, ctx.State(), address, 1, Write, 0);
      }
      return;
    }
    FirstFaultExtend(m, address, 0, Write);
    UnfoldBytesAt(m.mem, address, 0);
    Loaded(m, address, 1, value, Write);
    OneByteValue(value);
    CommitBytes(ctx.memMgr, [ptr.value], [value]);
    UnfoldWhole(ctx);
  }

  lemma {:induction false} OneByteValue(b: byte)
    ensures Bytes(b, 1) == [b]
    ensures forall p: nat :: [] + [p] == [p]
  {
  }

  /** One pointer for each byte of a write, or the first fault. */
  method ResolveWrite(ctx: CpuContext, address: u64, n: nat) returns (ok: bool, ptrs: seq<nat>)
    requires n > 0
    modifies ctx`scalar, ctx`exception
    ensures ok == Accessible(old(ctx.Whole()), address, n, Write)
    ensures ok ==> ctx.State() == old(ctx.State()) && ctx.memMgr.View() == old(ctx.memMgr.View())
                   && ptrs == Pointers(ctx.memMgr.View(), address, n)
                   && FirstFault(old(ctx.Whole()), address, n, Write) == n && !Pending(old(ctx.State()))
    ensures !ok ==> Pending(ctx.State()) && ctx.Whole() == Checked(old(ctx.Whole()), address, n, Write)
  {
    hide *;
    ghost var m := ctx.Whole();
    UnfoldWhole(ctx);
    ptrs := [];
    var offset := 0;
    FirstFaultEmpty(m, address, Write);
    UnfoldBytesAt(m.mem, address, 0);
    while offset < n
      invariant 0 <= offset <= n
      invariant ctx.State() == m.cpu && ctx.memMgr.View() == m.mem && ctx.Whole() == m
      invariant offset > 0 ==> !Pending(m.cpu)
      invariant ptrs == Pointers(m.mem, address, offset)
      invariant FirstFault(m, address, offset, Write) == offset
    {
      UnfoldByteFault(m, address, offset, Write);
      var bytePtr := Resolve(ctx, Wrap(address + offset), Write);
      UnfoldWhole(ctx);
      if bytePtr == None {
        if Pending(m.cpu) {
          PendingBlocks(m, address, n, 0, Write);
        } else {
          CheckedFault(m, ctx.State(), address, n, Write, offset);
        }
        return false, [];
      }
      FirstFaultExtend(m, address, offset, Write);
      UnfoldBytesAt(m.mem, address, offset);
      ptrs := ptrs + [bytePtr.value];
      offset := offset + 1;
    }
    Loaded(m, address, n, 0, Write);
    ok := true;
  }

  /** write_memory_word, _dword and _qword: every byte is resolved before the first one changes. */
  method WriteMemory(ctx: CpuContext, address: u64, n: nat, value: nat)
    requires n == 2 || n == 4 || n == 8
    modifies ctx`scalar, ctx`exception, ctx.memMgr`host
    ensures ctx.Whole() == Store(old(ctx.Whole()), address, n, value)
  {
    hide *;
    ghost var m := ctx.Whole();
    UnfoldWhole(ctx);
    UnfoldPending(m.cpu);
    if ctx.exception.code != NoException {
      PendingBlocks(m, address, n, value, Write);
      return;
    }
    NotLoaded(m, address, n, value);
    var ptr := GetContiguousPtr(ctx, address, n, Write, false);
    UnfoldWhole(ctx);
    AfterPtr(m, ctx.State(), address, n, Write, ptr);
    if ptr.Some? {
      ContiguousBytes(m, address, n, Write, ptr.value);
      Loaded(m, address, n, value, Write);
      CommitBytes(ctx.memMgr, Consecutive(ptr.value, n), Bytes(value, n));
      UnfoldWhole(ctx);
      return;
    }
    ghost var mid := ctx.Whole();
    if Pending(mid.cpu) {
      PendingBlocks(mid, address, n, value, Write);
    }
    var ok, bytePtrs := ResolveWrite(ctx, address, n);
    if !ok {
      return;
    }
    CommitBytes(ctx.memMgr, bytePtrs, Bytes(value, n));
    UnfoldWhole(ctx);
    Loaded(m, address, n, value, Write);
  }

  // What the accessors mean to a guest that sees each host byte through one address only.

  predicate Mapped(mem: Mem, address: u64) {
    address / PAGE in mem.pages
  }

  ghost predicate Unaliased(mem: Mem) {
    forall a: u64, b: u64 :: Mapped(mem, a) && Mapped(mem, b) && a != b ==> Ptr(mem, a) != Ptr(mem, b)
  }

  lemma {:induction false} PutAt(host: map<nat, byte>, ptrs: seq<nat>, bs: seq<byte>, p: nat)
    requires |ptrs| == |bs|
    requires forall i, j :: 0 <= i < j < |ptrs| ==> ptrs[i] != ptrs[j]
    ensures forall i :: 0 <= i < |ptrs| && ptrs[i] == p ==> p in Put(host, ptrs, bs) && Put(host, ptrs, bs)[p] == bs[i]
    ensures (forall i :: 0 <= i < |ptrs| ==> ptrs[i] != p) ==>
              (p in Put(host, ptrs, bs) <==> p in host) && (p in host ==> Put(host, ptrs, bs)[p] == host[p])
    decreases |bs|
  {
    if bs != [] {
      var rest := ptrs[1..];
      PutAt(host[ptrs[0] := bs[0]], rest, bs[1..], p);
      assert forall i :: 0 <= i < |rest| ==> rest[i] == ptrs[i + 1];
      if ptrs[0] != p && (forall i :: 0 <= i < |ptrs| ==> ptrs[i] != p) {
        assert forall i :: 0 <= i < |rest| ==> rest[i] != p;
      }
      if i :| 0 <= i < |ptrs| && ptrs[i] == p {
        if i == 0 {
          assert forall j :: 0 <= j < |rest| ==> rest[j] != p;
        } else {
          assert rest[i - 1] == p;
        }
      }
    }
  }

  lemma {:induction false} WrapInjective(address: u64, i: nat, j: nat)
    requires i < j < 0x1_0000_0000_0000_0000
    ensures Wrap(address + i) != Wrap(address + j)
  {
  }

  lemma {:induction false} AccessibleMapped(m: Machine, address: u64, n: nat, access: Access, i: nat)
    requires Accessible(m, address, n, access) && i < n
    ensures Mapped(m.mem, Wrap(address + i)) && ByteFault(m, address, i, access) == NoFault
  {
    assert ByteFault(m, address, i, access) == NoFault;
  }

  /** Address x is byte i of an access at address. */
  predicate IsByte(address: u64, i: nat, x: u64) {
    Wrap(address + i) == x
  }

  /** A write that goes through changes the bytes it names, in little-endian order, and no others. */
  lemma {:induction false} StoreChangesExactly(m: Machine, address: u64, n: nat, value: nat, x: u64)
    requires Unaliased(m.mem) && Accessible(m, address, n, Write) && n < 0x1_0000_0000_0000_0000 && Mapped(m.mem, x)
    ensures var after := Store(m, address, n, value);
            && after == m.(mem := m.mem.(host := after.mem.host))
            && (forall i: nat :: i < n && IsByte(address, i, x) ==> ByteAt(after.mem, x) == Bytes(value, n)[i])
            && ((forall i: nat :: i < n ==> !IsByte(address, i, x)) ==> ByteAt(after.mem, x) == ByteAt(m.mem, x))
  {
    hide Accessible, Ptr, Mapped, Wrap, FirstFault, Bytes, Put, Unaliased, Pointers;
    var ptrs := Pointers(m.mem, address, n);
    DistinctPointers(m, address, n, Write);
    PutAt(m.mem.host, ptrs, Bytes(value, n), Ptr(m.mem, x));
    var after := Store(m, address, n, value);
    SamePtr(m.mem, after.mem, x);
    forall i: nat | i < n && !IsByte(address, i, x)
      ensures ptrs[i] != Ptr(m.mem, x)
    {
      AccessibleMapped(m, address, n, Write, i);
      UnaliasedAt(m.mem, Wrap(address + i), x);
    }
    assert forall i: nat :: i < n && IsByte(address, i, x) ==> ptrs[i] == Ptr(m.mem, x);
    assert after.mem.host == Put(m.mem.host, ptrs, Bytes(value, n));
  }

  lemma {:induction false} UnaliasedAt(mem: Mem, a: u64, b: u64)
    requires Unaliased(mem) && Mapped(mem, a) && Mapped(mem, b) && a != b
    ensures Ptr(mem, a) != Ptr(mem, b)
  {
    hide Ptr, Mapped;
  }

  lemma {:induction false} DistinctPointers(m: Machine, address: u64, n: nat, access: Access)
    requires Unaliased(m.mem) && Accessible(m, address, n, access) && n < 0x1_0000_0000_0000_0000
    ensures var ptrs := Pointers(m.mem, address, n);
            |ptrs| == n && forall i, j :: 0 <= i < j < n ==> ptrs[i] != ptrs[j]
  {
    hide *;
    var ptrs := Pointers(m.mem, address, n);
    forall i, j | 0 <= i < j < n
      ensures ptrs[i] != ptrs[j]
    {
      AccessibleMapped(m, address, n, access, i);
      AccessibleMapped(m, address, n, access, j);
      WrapInjective(address, i, j);
      UnaliasedAt(m.mem, Wrap(address + i), Wrap(address + j));
    }
  }

  /** Pointers depend on the page table and the patches, not on the host bytes. */
  lemma {:induction false} SamePtr(before: Mem, after: Mem, x: u64)
    requires after == before.(host := after.host)
    ensures Ptr(after, x) == Ptr(before, x) && Mapped(after, x) == Mapped(before, x)
    ensures forall access :: Lookup(after, x, access) == Lookup(before, x, access)
  {
  }

  lemma {:induction false} StoreKeepsFaults(m: Machine, address: u64, n: nat, value: nat, x: u64, access: Access)
    requires Accessible(m, address, n, Write)
    ensures FaultAt(Store(m, address, n, value), x, access) == FaultAt(m, x, access)
    ensures Ptr(Store(m, address, n, value).mem, x) == Ptr(m.mem, x)
    ensures Mapped(Store(m, address, n, value).mem, x) == Mapped(m.mem, x)
    ensures Store(m, address, n, value).cpu == m.cpu
  {
    hide Accessible, Ptr, Mapped, Put, Pointers, Lookup, Bytes, Canonical;
    SamePtr(m.mem, Store(m, address, n, value).mem, x);
  }

  lemma {:induction false} StoreKeepsAccess(
    m: Machine, address: u64, n: nat, value: nat, other: u64, k: nat, access: Access)
    requires Accessible(m, address, n, Write)
    ensures FirstFault(Store(m, address, n, value), other, k, access) == FirstFault(m, other, k, access)
    ensures Accessible(Store(m, address, n, value), other, k, access) == Accessible(m, other, k, access)
    decreases k
  {
    hide Store, FaultAt, FirstFault;
    var after := Store(m, address, n, value);
    var f := FirstFault(m, other, k, access);
    StoreKeepsFaults(m, address, n, value, other, access);
    forall i: nat | i <= f
      ensures ByteFault(after, other, i, access) == ByteFault(m, other, i, access)
    {
      StoreKeepsFaults(m, address, n, value, Wrap(other + i), access);
    }
    FirstFaultIs(after, other, k, access, f);
  }

  lemma {:induction false} StoreKeepsUnaliased(m: Machine, address: u64, n: nat, value: nat)
    requires Accessible(m, address, n, Write) && Unaliased(m.mem)
    ensures Unaliased(Store(m, address, n, value).mem)
  {
    hide Store, Ptr, Mapped, Accessible;
    var after := Store(m, address, n, value);
    forall a: u64, b: u64 | Mapped(after.mem, a) && Mapped(after.mem, b) && a != b
      ensures Ptr(after.mem, a) != Ptr(after.mem, b)
    {
      StoreKeepsFaults(m, address, n, value, a, Write);
      StoreKeepsFaults(m, address, n, value, b, Write);
    }
  }

  /** A value read back is the value written, modulo its width. */
  lemma {:induction false} LoadAfterStore(m: Machine, address: u64, n: nat, value: nat)
    requires Unaliased(m.mem) && n < 0x1_0000_0000_0000_0000
    requires Accessible(m, address, n, Write) && Accessible(m, address, n, Read)
    requires value < Pow2(8 * n)
    ensures LoadValue(Store(m, address, n, value), address, n) == value
  {
    hide Store, Accessible, Pow2, LittleEndian, Bytes, ByteAt, Unaliased, Mapped, Wrap;
    var after := Store(m, address, n, value);
    StoreKeepsAccess(m, address, n, value, address, n, Read);
    forall i: nat | i < n
      ensures BytesAt(after.mem, address, n)[i] == Bytes(value, n)[i]
    {
      AccessibleMapped(m, address, n, Write, i);
      StoreChangesExactly(m, address, n, value, Wrap(address + i));
      assert IsByte(address, i, Wrap(address + i));
    }
    assert BytesAt(after.mem, address, n) == Bytes(value, n);
    ValueOfBytes(value, n);
  }

  /** The two accesses share no byte. */
  ghost predicate Disjoint(a: u64, n: nat, b: u64, k: nat) {
    forall i: nat, x: u64 :: i < n && IsByte(a, i, x) ==> (x - b) % 0x1_0000_0000_0000_0000 >= k
  }

  lemma {:induction false} DisjointAt(a: u64, n: nat, b: u64, k: nat, j: nat, x: u64)
    requires Disjoint(a, n, b, k) && j < k < 0x1_0000_0000_0000_0000 && x == Wrap(b + j)
    ensures forall i: nat :: i < n ==> !IsByte(a, i, x)
  {
    hide IsByte;
    assert (x - b) % 0x1_0000_0000_0000_0000 == j;
  }

  /** A write leaves every access to other bytes as it was. */
  lemma {:induction false} LoadAfterOther(m: Machine, address: u64, n: nat, value: nat, other: u64, k: nat)
    requires Unaliased(m.mem) && n < 0x1_0000_0000_0000_0000 && k < 0x1_0000_0000_0000_0000
    requires Accessible(m, address, n, Write) && Disjoint(address, n, other, k)
    ensures LoadValue(Store(m, address, n, value), other, k) == LoadValue(m, other, k)
  {
    hide Store, Accessible, LittleEndian, Bytes, ByteAt, Unaliased, Mapped, Wrap, Disjoint, IsByte;
    var after := Store(m, address, n, value);
    StoreKeepsAccess(m, address, n, value, other, k, Read);
    if Accessible(m, other, k, Read) {
      forall i: nat | i < k
        ensures BytesAt(after.mem, other, k)[i] == BytesAt(m.mem, other, k)[i]
      {
        AccessibleMapped(m, other, k, Read, i);
        DisjointAt(address, n, other, k, i, Wrap(other + i));
        StoreChangesExactly(m, address, n, value, Wrap(other + i));
      }
      assert BytesAt(after.mem, other, k) == BytesAt(m.mem, other, k);
    }
  }

  /** On a page fault CR2 is the lowest byte that faults, and the error code names its cause. */
  lemma {:induction false} FaultReport(m: Machine, address: u64, n: nat, access: Access)
    requires !Pending(m.cpu) && FirstFault(m, address, n, access) < n
    ensures var k := FirstFault(m, address, n, access);
            var after := Checked(m, address, n, access);
            && after.mem == m.mem && Pending(after.cpu)
            && (forall i: nat :: i < k ==> ByteFault(m, address, i, access) == NoFault)
            && match ByteFault(m, address, k, access)
               case NoFault => false
               case NonCanonical => after.cpu == m.cpu.(exception := Exception(GP, 0))
               case PageFault(protection) =>
                 && after.cpu.exception.code == PF
                 && after.cpu.scalar == m.cpu.scalar.(controlRegs := m.cpu.scalar.controlRegs[2 := Wrap(address + k)])
                 && Bit(after.cpu.exception.error, 0) == protection
                 && Bit(after.cpu.exception.error, 1) == (access == Write)
                 && Bit(after.cpu.exception.error, 2) == (m.cpu.scalar.cpl == 3)
                 && Bit(after.cpu.exception.error, 4) == (access == Exec)
  {
    hide FaultAt, FirstFault, Wrap;
  }
}
