/** Instruction fetch: the longest fetchable prefix of the fifteen-byte window. */
module Fetch {
  import opened Bits
  import opened MemoryManagement
  import opened CpuState
  import opened LinearMemory

  const MAX_FETCH: nat := 15

  /** The bytes a fetch delivers: those before the first one that cannot be fetched. */
  function FetchedBytes(m: Machine, address: u64): (bs: seq<byte>)
    ensures |bs| <= MAX_FETCH
  {
    if Pending(m.cpu) then [] else BytesAt(m.mem, address, FirstFault(m, address, MAX_FETCH, Exec))
  }

  /** A fetch also faults when any byte of the window cannot be read, however few the decoder needs. */
  function Fetched(m: Machine, address: u64): Machine {
    Checked(m, address, MAX_FETCH, Exec)
  }

  predicate WindowFetchable(m: Machine, address: u64) {
    Accessible(m, address, MAX_FETCH, Exec)
  }

  lemma {:induction false} WholeWindow(m: Machine, address: u64)
    requires WindowFetchable(m, address)
    ensures Fetched(m, address) == m
    ensures FetchedBytes(m, address) == BytesAt(m.mem, address, MAX_FETCH)
  {
    hide BytesAt, FirstFault, Pending;
  }

  lemma {:induction false} BytesAtSplit(mem: Mem, address: u64, n: nat, k: nat)
    ensures BytesAt(mem, address, n) + BytesAt(mem, Wrap(address + n), k) == BytesAt(mem, address, n + k)
  {
    hide ByteAt, Wrap, BytesAt;
    var whole, tail := BytesAt(mem, address, n + k), BytesAt(mem, Wrap(address + n), k);
    forall i | 0 <= i < k
      ensures tail[i] == whole[n + i]
    {
      WrapStep(address, n, i);
    }
  }

  lemma {:induction false} ContiguousFaults(m: Machine, address: u64, n: nat, k: nat, base: nat)
    requires FirstFault(m, address, n, Exec) == n
    requires Contiguous(m, Wrap(address + n), k, Exec, base)
    ensures FirstFault(m, address, n + k, Exec) == n + k
  {
    hide FaultAt, FirstFault, Wrap;
    forall i: nat | i < n + k
      ensures ByteFault(m, address, i, Exec) == NoFault
    {
      if i >= n {
        WrapStep(address, n, i - n);
        assert ByteFault(m, Wrap(address + n), i - n, Exec) == NoFault;
      }
    }
    FirstFaultIs(m, address, n + k, Exec, n + k);
  }

  lemma {:induction false} PendingFetch(m: Machine, address: u64)
    requires Pending(m.cpu)
    ensures Fetched(m, address) == m && FetchedBytes(m, address) == []
  {
  }

  lemma {:induction false} FetchStops(m: Machine, after: Cpu, address: u64, n: nat)
    requires !Pending(m.cpu) && n < 15
    requires FirstFault(m, address, n, Exec) == n && FaultAt(m, Wrap(address + n), Exec) != NoFault
    requires after == RaiseFault(m.cpu, Wrap(address + n), Exec, FaultAt(m, Wrap(address + n), Exec))
    ensures Machine(after, m.mem) == Fetched(m, address)
    ensures FetchedBytes(m, address) == BytesAt(m.mem, address, n)
  {
    hide FaultAt, FirstFault, RaiseFault, BytesAt, Checked;
    UnfoldByteFault(m, address, n, Exec);
    CheckedFault(m, after, address, 15, Exec, n);
    FirstFaultIs(m, address, 15, Exec, n);
  }

  lemma {:induction false} FetchCompletes(m: Machine, address: u64, n: nat)
    requires !Pending(m.cpu) && n == 15
    requires FirstFault(m, address, n, Exec) == n
    ensures Fetched(m, address) == m
    ensures FetchedBytes(m, address) == BytesAt(m.mem, address, n)
  {
    hide FirstFault, BytesAt;
  }

  lemma {:induction false} PageOfCode(m: Machine, address: u64, chunk: nat)
    requires m.mem.patches == [] && address % PAGE + chunk <= PAGE
    requires FaultAt(m, address, Exec) == NoFault
    ensures Contiguous(m, address, chunk, Exec, Ptr(m.mem, address))
  {
    hide FaultAt, Ptr;
    UnfoldByteFault(m, address, 0, Exec);
    ContiguousEmpty(m, address, Exec, Ptr(m.mem, address));
    PageChunk(m, address, 0, chunk, Exec, Ptr(m.mem, address));
  }

  method FetchInstructionBytes(ctx: CpuContext, address: u64) returns (buf: seq<byte>)
    modifies ctx`scalar, ctx`exception
    ensures ctx.Whole() == Fetched(old(ctx.Whole()), address)
    ensures buf == FetchedBytes(old(ctx.Whole()), address)
  {
    hide *;
    ghost var m := ctx.Whole();
    UnfoldWhole(ctx);
    UnfoldPending(m.cpu);
    UnfoldPatches(ctx.memMgr);
    FirstFaultEmpty(m, address, Exec);
    UnfoldBytesAt(m.mem, address, 0);
    if ctx.exception.code != NoException {
      PendingFetch(m, address);
      return [];
    }
    var bytes: seq<byte>, n := [], 0;
    if |ctx.memMgr.patches| == 0 {
      while n < 15
        invariant 0 <= n <= 15
        invariant ctx.State() == m.cpu && ctx.Whole() == m
        invariant bytes == BytesAt(m.mem, address, n)
        invariant FirstFault(m, address, n, Exec) == n
      {
        var current := Wrap(address + n);
        var ptr := Resolve(ctx, current, Exec);
        UnfoldWhole(ctx);
        if ptr == None {
          FetchStops(m, ctx.State(), address, n);
          return bytes;
        }
        PageRest(current);
        var chunk := if 0x1000 - current % 0x1000 > 15 - n then 15 - n else 0x1000 - current % 0x1000;
        PageOfCode(m, current, chunk);
        ContiguousBytes(m, current, chunk, Exec, ptr.value);
        ContiguousFaults(m, address, n, chunk, ptr.value);
        BytesAtSplit(m.mem, address, n, chunk);
        var copied := ReadHostBytes(ctx.memMgr, ptr.value, chunk);
        bytes := bytes + copied;
        n := n + chunk;
      }
    } else {
      while n < 15
        invariant 0 <= n <= 15
        invariant ctx.State() == m.cpu && ctx.Whole() == m
        invariant bytes == BytesAt(m.mem, address, n)
        invariant FirstFault(m, address, n, Exec) == n
      {
        var ptr := Resolve(ctx, Wrap(address + n), Exec);
        UnfoldWhole(ctx);
        UnfoldByteFault(m, address, n, Exec);
        if ptr == None {
          FetchStops(m, ctx.State(), address, n);
          return bytes;
        }
        FirstFaultExtend(m, address, n, Exec);
        UnfoldBytesAt(m.mem, address, n);
        bytes := bytes + [HostByte(ctx.memMgr.View(), ptr.value)];
        n := n + 1;
      }
    }
    FetchCompletes(m, address, n);
    return bytes;
  }

  lemma {:induction false} UnfoldPatches(mgr: MemoryManager)
    ensures mgr.View().patches == mgr.patches
  {
  }
}
