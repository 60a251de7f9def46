/** The CPU context, its snapshots, its exception slot and the cached mode key. */
module CpuState {
  import opened Bits
  import opened MemoryManagement

  datatype ExceptionCode =
    NoException | DE | GP | SS | NP | UD | PF | AC | BP | DB | OF | NM | MF

  datatype Exception = Exception(code: ExceptionCode, error: nat)

  datatype Segment = Segment(
    selector: nat, base: u64, limit: nat, kind: nat, dpl: nat,
    present: bool, granularity: bool, db: bool, longMode: bool)

  datatype SegmentName = SegES | SegCS | SegSS | SegDS | SegFS | SegGS

  /** The segment override prefix in force; the source writes -1 for none. */
  datatype Override = NoOverride | Override(segment: SegmentName)

  datatype Segments = Segments(es: Segment, cs: Segment, ss: Segment, ds: Segment, fs: Segment, gs: Segment)

  /** What the prefix scan of a decoder leaves behind. */
  datatype Prefixes = Prefixes(
    rexPresent: bool, rexW: bool, rexR: bool, rexX: bool, rexB: bool,
    operandSize: bool, addressSize: bool)

  datatype X87 = X87(
    controlWord: nat, statusWord: nat, tagWord: nat, lastOpcode: nat,
    instructionPointer: u64, dataPointer: u64, pending: bool)

  datatype Tables = Tables(gdtrBase: u64, gdtrLimit: nat, ldtrBase: u64, ldtrLimit: nat)

  datatype Vector = Vector(
    xmm: seq<u64>, ymmUpper: seq<u64>, zmmUpper: seq<u64>, opmask: seq<u64>, mm: seq<u64>, mxcsr: nat)

  type Registers = s: seq<u64> | |s| == 16 witness seq(16, _ => 0)

  const RAX: nat := 0
  const RBX: nat := 3
  const RSP: nat := 4
  const RBP: nat := 5
  const RSI: nat := 6
  const RDI: nat := 7
  const CR2: nat := 2

  /** Everything a scalar snapshot holds. */
  datatype Scalar = Scalar(
    regs: Registers, controlRegs: Registers, longModeActive: bool, segments: Segments,
    rip: u64, rflags: u64, cpl: nat, x87: X87, tables: Tables,
    prefixes: Prefixes, segmentOverride: Override, lastInstSize: nat)

  datatype Cpu = Cpu(scalar: Scalar, vector: Vector, exception: Exception, modeKeyBits: nat, modeKeyValid: bool)

  /** A context together with the memory its manager shows. */
  datatype Machine = Machine(cpu: Cpu, mem: Mem)

  predicate Pending(c: Cpu) {
    c.exception.code != NoException
  }

  /** The first exception wins. */
  function Raise(c: Cpu, code: ExceptionCode, error: nat): Cpu {
    if Pending(c) then c else c.(exception := Exception(code, error))
  }

  predicate Is64BitCode(c: Cpu) {
    c.scalar.longModeActive && c.scalar.segments.cs.longMode
  }

  predicate Canonical(address: u64) {
    address / 0x1_0000_0000_0000 == if address / 0x8000_0000_0000 % 2 == 1 then 0xFFFF else 0
  }

  lemma CanonicalRange(address: u64)
    ensures Canonical(address) <==> address < 0x8000_0000_0000 || address >= WORD - 0x8000_0000_0000
  {
  }

  function SegmentOf(c: Cpu, name: SegmentName): Segment {
    match name
    case SegES => c.scalar.segments.es
    case SegCS => c.scalar.segments.cs
    case SegSS => c.scalar.segments.ss
    case SegDS => c.scalar.segments.ds
    case SegFS => c.scalar.segments.fs
    case SegGS => c.scalar.segments.gs
  }

  function SegmentBase(c: Cpu, name: SegmentName): u64 {
    if Is64BitCode(c) && name != SegFS && name != SegGS then 0 else SegmentOf(c, name).base
  }

  /** The address check of 64-bit code: #SS through SS, #GP through any other segment. */
  function ValidateLinear(c: Cpu, address: u64, name: SegmentName): Cpu {
    if !Is64BitCode(c) || Canonical(address) then c
    else Raise(c, if name == SegSS then SS else GP, 0)
  }

  function MaskOffset(value: u64, operandSize: nat): u64 {
    if operandSize == 16 then value % 0x1_0000
    else if operandSize == 32 then value % 0x1_0000_0000
    else value
  }

  predicate ValidCodeOffset(c: Cpu, value: u64, operandSize: nat) {
    Is64BitCode(c) ==> Canonical(MaskOffset(value, operandSize))
  }

  /** Loading RIP, or #GP(0) when 64-bit code would leave the canonical range. */
  function AssignRip(c: Cpu, value: u64, operandSize: nat): Cpu {
    if ValidCodeOffset(c, value, operandSize) then c.(scalar := c.scalar.(rip := MaskOffset(value, operandSize)))
    else Raise(c, GP, 0)
  }

  // The mode key.

  function ModeBits(c: Cpu): nat {
    BoolBit(c.scalar.longModeActive) + 2 * BoolBit(c.scalar.segments.cs.longMode) + 4 * BoolBit(c.scalar.segments.cs.db)
  }

  /** The cached key, while marked valid, is the key of the current state, and the state is one the
      engine can reach: long mode is active from initialisation on. */
  predicate ModeKeyCoherent(c: Cpu) {
    c.scalar.longModeActive && (c.modeKeyValid ==> c.modeKeyBits == ModeBits(c))
  }

  /** Reading the key primes the cache. */
  function PrimeModeKey(c: Cpu): Cpu {
    if c.modeKeyValid then c else c.(modeKeyBits := ModeBits(c), modeKeyValid := true)
  }

  // Rolling back.

  function RestoreScalar(c: Cpu, saved: Scalar): Cpu {
    c.(scalar := saved, modeKeyValid := false)
  }

  /** The rollback of an instruction that keeps its partial progress. */
  function RestoreTransient(c: Cpu, saved: Scalar): Cpu {
    c.(scalar := c.scalar.(prefixes := saved.prefixes, segmentOverride := saved.segmentOverride,
                           lastInstSize := saved.lastInstSize))
  }

  const NO_PREFIXES := Prefixes(false, false, false, false, false, false, false)

  class CpuContext {
    var scalar: Scalar
    var vector: Vector
    var exception: Exception
    var modeKeyBits: nat
    var modeKeyValid: bool
    const memMgr: MemoryManager

    function State(): Cpu
      reads this
    {
      Cpu(scalar, vector, exception, modeKeyBits, modeKeyValid)
    }

    function Whole(): Machine
      reads this, memMgr
    {
      Machine(State(), memMgr.View())
    }

    /** The state after init_cpu_context, over any memory. */
    constructor (mgr: MemoryManager, startInCompat32: bool)
      ensures memMgr == mgr
      ensures ModeKeyCoherent(State()) && !Pending(State()) && scalar.segmentOverride == NoOverride
      ensures Is64BitCode(State()) == !startInCompat32
    {
      memMgr := mgr;
      var code := Segment(0x08, 0, 0xFFFF_FFFF, 0x0B, 0, true, true, startInCompat32, !startInCompat32);
      var data := Segment(0x10, 0, 0xFFFF_FFFF, 0x03, 0, true, true, true, false);
      var zeros: seq<u64> := seq(32, _ => 0);
      var noRegs: Registers := seq(16, _ => 0);
      scalar := Scalar(
        noRegs, noRegs[0 := 0x8000_0011][4 := 0x20], true,
        Segments(data, code, data.(selector := 0x18), data, data, data),
        0, 0, 0, X87(0x037F, 0, 0xFFFF, 0, 0, 0, false), Tables(0, 0, 0, 0),
        NO_PREFIXES, NoOverride, 0);
      vector := Vector(zeros, zeros, zeros + zeros, zeros[..8], zeros[..8], 0x1F80);
      exception := Exception(NoException, 0);
      modeKeyBits, modeKeyValid := 0, false;
    }

    /** Overwrites every field, as an opaque handler may. */
    method Load(c: Cpu)
      modifies this
      ensures State() == c
    {
      scalar, vector, exception := c.scalar, c.vector, c.exception;
      modeKeyBits, modeKeyValid := c.modeKeyBits, c.modeKeyValid;
    }

    method RaiseException(code: ExceptionCode, error: nat)
      modifies `exception
      ensures State() == Raise(old(State()), code, error)
    {
      if exception.code == NoException {
        exception := Exception(code, error);
      }
    }

    method ReadModeKey() returns (bits: nat)
      modifies `modeKeyBits, `modeKeyValid
      ensures State() == PrimeModeKey(old(State())) && bits == modeKeyBits
      ensures ModeKeyCoherent(old(State())) ==> bits == ModeBits(State())
    {
      if !modeKeyValid {
        modeKeyBits := ModeBits(State());
        modeKeyValid := true;
      }
      bits := modeKeyBits;
    }

    method AssignRipChecked(value: u64, operandSize: nat) returns (ok: bool)
      modifies `scalar, `exception
      ensures ok == ValidCodeOffset(old(State()), value, operandSize)
      ensures State() == AssignRip(old(State()), value, operandSize)
    {
      ok := ValidCodeOffset(State(), value, operandSize);
      if ok {
        scalar := scalar.(rip := MaskOffset(value, operandSize));
      } else {
        RaiseException(GP, 0);
      }
    }

    method RestoreScalarSnapshot(saved: Scalar)
      modifies `scalar, `modeKeyValid
      ensures State() == RestoreScalar(old(State()), saved)
    {
      scalar, modeKeyValid := saved, false;
    }

    method RestoreTransientSnapshot(saved: Scalar)
      modifies `scalar
      ensures State() == RestoreTransient(old(State()), saved)
    {
      scalar := scalar.(prefixes := saved.prefixes, segmentOverride := saved.segmentOverride,
                        lastInstSize := saved.lastInstSize);
    }
  }
}
