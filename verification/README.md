# A verified model of the cpueaxh emulator core

cpueaxh emulates an x86-64 processor over guest memory kept in the host. This project models the parts of it where
speed and meaning pull in different directions, and proves that they do not come apart, or says exactly when they do.

- **Instruction cache and step machine** (`Fetch`, `Decoder`, `Replay`, `Executor`, `InstCache`, `Transparency`,
  `CodeStores`, `Fragments`). Decoded instructions are kept in a direct-mapped table under RIP, code version and mode
  bits. Whole runs with any sound cache are equal, state by state and code by code, to runs without one, as long as
  three things hold at each step: code bytes stay what they are under one version, the fetch window can be fetched,
  and what a few decoders read besides bytes, RIP and mode is what it was when the same bytes were decoded there
  before. Where one of them fails, further theorems say what a hit then does.
- **Entries that go stale** (`OpenedEntries`, `Leave`, `FsBase`, `Moffs`, `StaleEntries`). The third condition,
  instruction by instruction: for LEAVE, RDFSBASE, RDGSBASE and the direct loads of MOV, exactly when a hit is
  transparent.
- **Run loop** (`Registry`, `Escapes`, `RunLoop`, `LoopRefinement`, `ObservedRuns`, `Emulation`, `RunEnds`). Hooks,
  escape callbacks, the short cut that skips fetching and classifying, the counters that stop a scan early. The loop
  with the short cut makes the same run as the loop that takes the slow path at every turn. Where a run starts, which
  turns it takes and where it ends.
- **Handlers and faults** (`Addressing`, `AluDecode`, `AluExecute`, `PreciseSteps`, `Xadd`, `NoFaultMarks`). ADD, SUB,
  AND and CMP: decoder, legacy handler and pre-decoded fast handler, byte for byte, with the one case in which they
  differ, and the precision of their faults. XADD, whose faults are not always precise. Which two-byte opcodes run
  without a snapshot whatever their operand.
- **From bytes to meaning** (`Operands`, `Encodings`, `RegisterParts`, `StepLengths`, `Meanings`, `InlineSteps`,
  `HandlerBytes`). Memory operands and instructions as an assembler writes them, their encodings, and what a step of
  the encoding does: decoding gives the operand back, its address is the sum it names, the step leaves the answer, the
  flags in numbers, and RIP behind the bytes. The same for RET, Jcc and the stack, and for the handlers of XADD,
  LEAVE, RDFSBASE, RDGSBASE and direct MOV.
- **Memory** (`MemoryManagement`, `Regions`, `LinearMemory`, `Stack`, `Atomic`, `PlainRmw`). The region list and its
  page cache, the contiguous-pointer accessors, resolve-then-commit writes, the stack helpers at three widths, LOCK as
  interleaved threads, with the loop of compare-and-swaps and without.
- **Control transfer and modes** (`Calls`, `FarPointers`, `Returns`, `ModeKey`). Near and far CALL, from the bytes of
  pointer and descriptor to CS and RIP, RET against a shadow stack, and the cached mode key.
- **Integer kernels** (`Flags`, `Bmi`, `BitFields`, `BitString`, `Crc32c`, `Division`, over `Bits`).
- **Witnesses** (`Witnesses`). Concrete machines for the theorems that tell where the program falls short.

Words are natural numbers below 2^64 with every wrap-around written out. A context is a record of registers, segments,
flags, snapshots and the exception slot; a memory is a page table, byte patches, host bytes and the code version; a
machine is both. Where the program updates state in place there is a class (`CpuContext`, `MemoryManager`,
`InstCache`, `Engine`, `Manager`, `Cell`), and each of its methods is proved equal to a function from the old state to
the new one. The theorems are about those functions. An instruction that is not opened up has a handler, a probe that
captures a payload from the state it is decoded in, and a fast handler that replays the payload in another
(`Decoder.Isa`). All three are arbitrary within a contract, `Transparency.WellBehaved`, in two halves.
`Transparency.Civil`: they keep the mode key coherent and a pending exception as it is. `Replay.OthersReplay`:
payloads captured in two states do the same to every machine at that RIP and in that mode, up to the rollback of a
fault, if the two states agree on what the decoder of the bytes reads besides (`Decoder.Latent`: SS.B for ENTER and
LEAVE and the base of DS for the direct forms of MOV, both outside 64-bit code, and CR4.FSGSBASE for the 0F AE group).
The second half compares two captures with each other, not with the legacy handler. The opened families, XADD, LEAVE,
RDFSBASE, RDGSBASE and the direct forms of MOV are proved to meet it (`Replay.AluReplays`, `Xadd.XaddReplays`,
`Leave.LeaveReplays`, `FsBase.BaseReplays`, `Moffs.MoffsReplays`), and `StaleEntries.OpenedIsWellBehaved` gives an
instruction set with LEAVE, RDFSBASE, RDGSBASE and MOV in it that meets both; for the others it is assumed. Callbacks
are arbitrary (`RunLoop.Host`).

## What the model shows about the program

Each point is a theorem of the project; where its conditions are many, a second theorem names an input that meets
them.

- A guest store does not move the code version, so self-modifying code runs stale from the cache
  (`Transparency.SelfModifyingCodeGoesStale`, `Witnesses.StaleCodeIsRun`), although the comment at
  cpueaxh/cpu/executor.hpp:418-419 says otherwise. The version contract is kept exactly as long as stores put, on
  fetchable bytes, what is there already (`CodeStores.StoreKeepsCodeIff`, `CodeStores.StepKeepsCodeIff`).
- Some decoders read state that is neither in the bytes nor in the mode key, against the rule at
  cpueaxh/cpu/decoder.hpp:6-9, and no code version moves when it changes. A hit on LEAVE outside 64-bit code uses the
  stack size of the state it was decoded in, and is transparent exactly when SS.B is the same, LOCK is there, or both
  sizes come to the same result (`StaleEntries.LeaveHitIff`, `StaleEntries.StaleStackSize`); ENTER captures the same
  size. A hit on RDFSBASE or RDGSBASE still runs after CR4.FSGSBASE was cleared (`StaleEntries.BaseHitIff`,
  `StaleEntries.StaleEnable`). A hit on a direct load of MOV outside 64-bit code reads at the base DS had, and is
  transparent exactly when that reads the same (`StaleEntries.LoadHitIff`, `StaleEntries.StaleDataBase`).
- The direct forms of MOV lose their segment prefix even on the first run: the fast handler reads at the address the
  probe found, and the probe runs before the prefix is stamped. Fast and legacy handler agree exactly when both
  addresses read the same (`Moffs.PrefixDroppedIff`, `StaleEntries.LostPrefix`).
- A step whose fetch faults behind the first bytes raises the fault and still files what it made of those bytes. The
  cache is then sound no more, and code that may fetch the whole window later runs the fragment
  (`Fragments.FragmentUnsound`, `Fragments.FragmentIsRun`, `Fragments.FragmentIsSeen`).
- A cache hit skips the fetch and with it the privilege check of the fifteen-byte window; it agrees with an uncached
  engine exactly when that window is fetchable (`Transparency.HitTransparentIff`, `Witnesses.HitOutlivesPrivilege`). A
  hit that faults there and the fetch that faults instead leave registers and segments alike where both entries are
  rolled back (`Fragments.FaultingHitKeeps`).
- A hook before an instruction that moves RIP makes the loop file the old address's code under the new address, which
  is harmless only if the bytes are the same (`LoopRefinement.MovedRipPoisonsCache`); a later instruction there is the
  wrong one (`LoopRefinement.MovedRipRunsOldCode`, `Witnesses.MovedRipIsSeen`).
- LOCK ADD, SUB and AND are accepted and then load and store like the forms without LOCK (`PlainRmw.LockIsIgnored`),
  so two threads can lose an operand (`PlainRmw.LostUpdate`). They come out right exactly when no store that changes
  the outcome falls between a load and its store (`PlainRmw.PlainFoldIff`). The LOCK forms that go through the loop of
  compare-and-swaps are atomic (`Atomic.LockIsAtomic`). LOCK ADC and LOCK SBB are accepted with a memory operand and
  stored plainly as well (cpueaxh/instructions/adc.hpp:448, cpueaxh/instructions/sbb.hpp:448); to the shared word they
  are an addition and a subtraction of the operand with the thread's carry (`PlainRmw.CarryIsPlain`).
- XADD without LOCK is marked as never faulting, because the classifier takes its second opcode byte for a ModRM byte
  (`Xadd.ClassifiedSafe`); on a page that can be read and not written it faults with the register and the flags
  already changed, and nothing to roll back to (`Xadd.XaddPreciseIff`, `Witnesses.FaultLeavesRegister`). The two-byte
  opcodes that run without a snapshot whatever their operand are exactly 0F 0D, 1E, 1F, C0, C1, C8 to CF and, without
  66, 8D (`NoFaultMarks.SparedWhateverIff`); the classifier alone marks more (`NoFaultMarks.MarkedWhateverIff`), which
  the test for vector state takes back.
- The raw register write of CS.DB and CS.L leaves the cached mode key behind (`ModeKey.RawWriteLagsIff`).
- The legacy handlers check a RIP-relative operand twice, the first time with an instruction size of zero; the fast
  ones check once (`AluExecute.FastDiffers`, `AluExecute.CornerIsMet`).
- An escape registered under an id past the last known one is never found, so it can be registered again, and entries
  past position 254 are not indexed (`Registry.UnknownIdIsLost`, `Registry.DuplicatesComeAbout`,
  `Registry.IndexIsScanIff`).
- A mapping that reaches the top of the address space is accepted any number of times and never visible
  (`Regions.TopIsLost`, `Regions.MappedIsSeenIff`); changing a range that ends there is granted without effect
  (`Regions.RequestExact`).
- The shift-subtract division loses a bit for some divisors above 2^63 (`Division.UDiv128`), always when the dividend
  is 2^127 or more (`Division.LargeDividend`, `Division.InexactDivision`).
- At address size 16 the form with a displacement and no register takes no displacement bytes and addresses 0, while
  the form of DI alone takes two that it does not use (cpueaxh/instructions/add.hpp:509-511,
  cpueaxh/cpu/helper.hpp:335-342). Without a base a 32-bit displacement is extended with zeros, at address size 32
  there is no RIP-relative form, and R13 as a base counts for the stack segment. All of it is in
  `Operands.OffsetOf`, `Operands.SegmentFor` and `Operands.OperandAddress`.
- The step codes for HLT and for undefined opcodes are never returned (`Executor.StepCodes`).

## Model

| member | source | states |
|---|---|---|
| Transparency.RunTransparent | cpueaxh/cpu/executor.hpp:397-494 | Over every run of steps and outside events that keeps the version contract, finds its fetch windows fetchable, and finds what its decoders read besides the mode as it was when the same bytes were decoded there before under that version, a sound cache gives the same machine and the same step codes as no cache, and stays sound, whatever RIPs share a slot |
| Transparency.StepTransparent | cpueaxh/cpu/executor.hpp:397-494 | One step with a sound cache equals the step without, if what the decoder of the bytes reads besides the mode is as it was in the states remembered for that place; the slots stay sound if the step keeps code under its version |
| Transparency.StepIsFresh | cpueaxh/cpu/executor.hpp:430-494 | Hit or miss, with prefetched bytes or not, such a step runs what a fresh decode of the current window would run |
| Transparency.SoundKept | cpueaxh/cpu/inst_cache.hpp:112-193 | Any change of memory under the version contract keeps every slot meaning what it meant; a new version leaves nothing to remember |
| Transparency.FillSound | cpueaxh/cpu/inst_cache.hpp:174-193 | Committing a fresh decode keeps all slots sound, once its state is remembered |
| Transparency.EmptySound | cpueaxh/cpu/inst_cache.hpp:119-143 | A cache just initialised or flushed is sound for every memory, with no state to remember |
| Transparency.EmptyNeverHits | cpueaxh/cpu/inst_cache.hpp:39-71 | A zeroed slot answers no lookup, not even at RIP 0 with version 0 |
| Transparency.StepResting | cpueaxh/cpu/executor.hpp:264-392 | Every step ends with a coherent mode key and no stamped segment override, faulting or not, whatever open handlers capture |
| Transparency.HitTransparentIff | cpueaxh/cpu/executor.hpp:448-469 | A hit on a settled machine whose instruction runs to the end leaves the machine an uncached engine leaves if and only if the whole fetch window is fetchable now |
| Transparency.HitFaultsAgreeIff | cpueaxh/cpu/executor.hpp:448-469 | On a settled machine, whether its instruction faults or not, a hit ends with the exception an uncached engine would end with if and only if the window is fetchable, or the two happen to be the same |
| Fragments.FaultingHitKeeps | cpueaxh/cpu/executor.hpp:348-494 | When a hit faults under a window that cannot be fetched, the cached and the uncached step both leave every scalar field but CR2 as it was, where the entries of both are rolled back |
| Fragments.FragmentUnsound | cpueaxh/cpu/executor.hpp:458-479 | A miss whose fetch faults behind bytes that decode to something raises the fault and leaves a cache that is sound for no states passed |
| Fragments.FragmentIsRun | cpueaxh/cpu/executor.hpp:458-479 | Whoever reaches that address later, in that mode and under that version, runs the fragment |
| Fragments.FragmentIsSeen | cpueaxh/cpu/executor.hpp:458-479 | A jump across the end of a user page, reached by user code and then by supervisor code, raises #UD from the cache, where an engine without a cache jumps |
| Transparency.SelfModifyingCodeGoesStale | cpueaxh/cpu/executor.hpp:413-426 | INT1 overwritten by the guest with INT3 keeps raising #DB from the cache, while an uncached engine raises #BP |
| CodeStores.StoreKeepsCodeIff | cpueaxh/cpu/executor.hpp:413-426 | A guest store keeps what fetch sees under its version if and only if every byte it writes on fetchable memory equals the byte that was there |
| CodeStores.StoresKeepCodeIff | cpueaxh/cpu/executor.hpp:413-426 | So does any sequence of stores, overlapping or not, judged by the last byte each address gets |
| CodeStores.AluMemory | cpueaxh/instructions/add.hpp:753-842 | The memory after ADD, SUB, AND or CMP is the memory before with the stores predicted from the state before |
| CodeStores.StepKeepsCodeIff | cpueaxh/cpu/executor.hpp:397-494 | A step keeps the version contract if and only if the stores it is about to make spare the code |
| CodeStores.SparingRunsTransparent | cpueaxh/cpu/executor.hpp:397-494 | Runs whose instructions are about to spare the code, find their windows fetchable and their decoders unchanged, checked before each step, go the same way with a sound cache as without; handlers left open are assumed to write what is predicted of them |
| Witnesses.StaleCodeIsRun | cpueaxh/cpu/executor.hpp:413-426 | A program that overwrites its own INT1 meets the conditions and runs the old byte |
| Witnesses.HitOutlivesPrivilege | cpueaxh/cpu/executor.hpp:448-469 | User code that jumps into a supervisor page over a live slot, on a settled machine, runs its instruction, where a fetch would fault |
| Transparency.PendingRun | cpueaxh/cpu/executor.hpp:264-392 | An instruction run under a pending exception reports an exception, whatever it is |
| Replay.ReplayIsFreshDecode | cpueaxh/cpu/decoder.hpp:343-367 | An entry decoded in one state and run in another at the same RIP, mode and bytes, where what the decoder of these bytes reads besides agrees, steps exactly like an entry decoded on the spot |
| Replay.AluReplays | cpueaxh/cpu/decoder.hpp:1060-1234 | In the opened families the entries decoded in any two states do the same to every machine at that RIP and mode, up to the rollback the entry has |
| Replay.NoFaultMeansRegisters | cpueaxh/cpu/decoder.hpp:29-160 | An entry of the opened families marked as never faulting has no memory operand, or faults while decoding |
| Replay.ProbeIsClean | cpueaxh/cpu/decoder.hpp:343-367 | A probe that succeeds has captured the payload of these bytes and met no fault |
| Replay.FastOrLegacy | cpueaxh/cpu/decoder.hpp:1060-1234 | When one state's probe succeeds and another's does not, fast and legacy handler still do the same in any state at that RIP and mode |
| InstCache.InstCache.Lookup | cpueaxh/cpu/inst_cache.hpp:148-167 | A lookup answers the entry of the indexed slot exactly when tag, version and mode all match |
| InstCache.InstCache.Commit | cpueaxh/cpu/inst_cache.hpp:174-193 | A commit replaces the one indexed slot by the entry under the current RIP, version and mode, and no other |
| InstCache.InstCache.Flush | cpueaxh/cpu/inst_cache.hpp:138-143 | A flush leaves every slot blank |
| InstCache.StepWithPrefetch | cpueaxh/cpu/executor.hpp:397-494 | The step on context, memory and cache is the step function: pending check, key, lookup, fetch, decode, commit, dispatch |
| InstCache.DecodeSized | cpueaxh/cpu/dispatch_helpers.hpp:232-258 | Every decode that yields an inline RET gives it an operand size of 16, 32 or 64 bits |
| Fetch.FetchInstructionBytes | cpueaxh/cpu/executor.hpp:47-89 | Page-wise and byte-wise loops deliver the longest fetchable prefix of the window, and raise the first fault of the window however few bytes the decoder needs |
| Fetch.WholeWindow | cpueaxh/cpu/executor.hpp:47-89 | A fully fetchable window is delivered whole and changes nothing |
| Decoder.DecodeInstruction | cpueaxh/cpu/decoder.hpp:418-1058 | The decoder leaves the context as it found it, and its entry is the static decode of the bytes and the mode with what a probe in the live state attaches; the arms of the ladder beyond the opened families are parameters |
| Decoder.Probe | cpueaxh/cpu/decoder.hpp:343-367 | A probe puts the context back, and succeeds exactly when decoding raised nothing and found a size of 1 to 15 |
| Decoder.DecodeFrame | cpueaxh/instructions/add.hpp:551-746 | Decoding touches the prefix bits, the instruction size, the exception, and nothing else |
| Decoder.PeekOpcode | cpueaxh/cpu/dispatch_helpers.hpp:16-35 | The scan stops at the first byte that is no prefix in this mode and reads a one- or two-byte opcode there |
| Decoder.PeekSegmentOverride | cpueaxh/cpu/dispatch_helpers.hpp:188-197 | The last segment prefix wins |
| Executor.DispatchDecoded | cpueaxh/cpu/executor.hpp:264-392 | Stamp, snapshot, run, roll back or advance: the dispatched step on the context is the dispatch function, which moves RIP as `StepLengths.StepMovesBySize` and `Meanings.StepMeans` say |
| Executor.PreciseFaults | cpueaxh/cpu/executor.hpp:264-392 | Whatever a handler did, a guarded step that faults leaves registers, RIP, flags, segments, x87 and control registers but CR2 as at entry, and vector state if it was snapshot |
| Executor.ExceptionSurvives | cpueaxh/cpu/executor.hpp:348-392 | Rolling back keeps the exception the handler raised, its CR2 and the memory it wrote |
| Executor.StepCodes | cpueaxh/cpu/executor.hpp:264-392 | Only success and exception are ever reported, exception exactly when one is pending, and no override stays stamped |
| Executor.ReturnInline | cpueaxh/cpu/executor.hpp:131-200 | The inline near RET pops, checks the target, then releases the immediate |
| Executor.RollBackContext | cpueaxh/cpu/executor.hpp:348-392 | The rollback restores what was snapshot and keeps exception and CR2 |
| Executor.CompareThenJump | cpueaxh/cpu/executor.hpp:202-258 | CMP on any operands of any width and the jump behind it: the jump is taken if and only if its condition holds of the operands as numbers, and the pair changes no memory and no register |
| StepLengths.StepMovesBySize | cpueaxh/cpu/executor.hpp:350-367 | Whatever handler runs, a step that ends well moves RIP by the instruction size the handler left, modulo 2^64, unless the entry is a branch; a branch leaves RIP where its handler put it |
| StepLengths.StepMovesByLength | cpueaxh/cpu/executor.hpp:350-367 | A step of ADD, SUB, AND or CMP that ends well, fast or legacy, decoded where it runs or in another state of the mode, decodes cleanly and moves RIP by exactly the length of the decode |
| StepLengths.FetchedStepMoves | cpueaxh/cpu/executor.hpp:397-494 | On a miss, with the bytes fetched or handed in, RIP moves by the prefixes, opcode, ModRM, SIB, displacement and immediate that those bytes have |
| InlineSteps.JumpSteps | cpueaxh/cpu/executor.hpp:236-258 | In 64-bit code the bytes 70+cc d8 and 0F 80+cc d32 lead behind themselves, or the displacement further if the condition holds, or raise #GP if that is not canonical; only RIP and the size change |
| InlineSteps.ReturnSteps | cpueaxh/cpu/executor.hpp:131-200 | C3 and C2 behind any prefixes: RIP is what the stack holds, in two, four or eight bytes, the stack pointer moves past it and past the bytes to release at the width of the stack, and nothing else changes |
| PreciseSteps.FaultsArePrecise | cpueaxh/cpu/executor.hpp:264-392 | Every step of ADD, SUB, AND and CMP that faults, with the no-fault mark or without, whatever the state its entry was decoded in, leaves memory, vector state and every scalar field but CR2 as they were, and without the mark the prefix bits and the size too |
| Meanings.StepMeans | cpueaxh/instructions/add.hpp:551-863 | One step of ADD, SUB, AND or CMP from its bytes, for every form of the opcode map, every operand, all prefixes and whatever follows, fast or legacy: the first operand becomes sum, difference or common bits unless it only compares, the six flags are those of the operation in numbers, RIP is behind the bytes, and nothing else has changed |
| Meanings.StepFaults | cpueaxh/instructions/add.hpp:551-863 | Where the operand may not be read, or not be written though the operation writes it, the step ends in an exception, so that together the two say exactly when it ends well |
| Meanings.BodyMeans | cpueaxh/instructions/add.hpp:753-842 | The body on a decoded form takes its operands from the register parts, the address and the sign-extended immediates that the form names, at the width that opcode, REX.W and 66 give, and puts the answer where it belongs |
| Meanings.OperationMeans | cpueaxh/instructions/add.hpp:242-372 | The result and the flag update of each operation are its answer modulo the width and its flags in numbers |
| Meanings.AddEaxEbx | cpueaxh/instructions/add.hpp:308-340 | 01 D8 adds EBX to EAX modulo 2^32, clears the upper half of RAX, sets CF for a carry out, and moves RIP by two |
| Encodings.EncodingRoundTrip | cpueaxh/instructions/add.hpp:551-748 | Decoding any encoding behind any prefixes finds the instruction it encodes, in exactly its bytes; a LOCK that does not belong there gives #UD |
| Encodings.LengthIsBytes | cpueaxh/instructions/add.hpp:487-748 | Every clean decode is as long as prefixes, opcode, ModRM, SIB, displacement and immediate by the tables of addressing forms, all of them within the bytes |
| Encodings.PrefixesMean | cpueaxh/instructions/add.hpp:565-595 | The prefix loop stops at the first byte that is no prefix and keeps of the others the last REX byte and whether there was a 66, a 67 and a LOCK |
| RegisterParts.ReadsPart | cpueaxh/cpu/helper.hpp:399-447 | A register operand is the low byte, word or dword or the whole of its register, or without REX the second byte of one of the first four |
| RegisterParts.WritesPart | cpueaxh/cpu/helper.hpp:413-451 | Writing it replaces that part of that one register: bytes and words leave the rest, dwords clear the upper half |
| Xadd.ClassifiedSafe | cpueaxh/cpu/decoder.hpp:94-101 | For every prefix and every operand, XADD is marked as never faulting if and only if there is no LOCK prefix |
| Xadd.ExchangesAndAdds | cpueaxh/instructions/xadd.hpp:108-131 | Where its operand can be read and written, XADD leaves the sum modulo the width in memory and the old value in the register; CF is a carry out, OF signed overflow, AF a carry out of the low digit, ZF, SF and PF describe the sum, and every other bit and field stays |
| Xadd.ExchangesRegisters | cpueaxh/instructions/xadd.hpp:108-131 | On two registers it does the same and never faults; the sum is written last, so a register exchanged with itself holds the sum |
| Xadd.XaddOperands | cpueaxh/instructions/xadd.hpp:108-131 | The width is that of the opcode, REX.W and 66, the register operand that of the reg field with REX.R |
| HandlerBytes.XaddFromBytes | cpueaxh/instructions/xadd.hpp:192-292 | 0F C0 and 0F C1 behind any prefixes but LOCK: the handler runs the exchange on the register operand and at the address that the bytes name |
| Xadd.ExchangeFaults | cpueaxh/instructions/xadd.hpp:108-131 | It faults if and only if the operand cannot be read or cannot be written; unreadable, nothing has changed, readable, flags and register have their new values, and never memory |
| Xadd.XaddPreciseIff | cpueaxh/instructions/xadd.hpp:108-131 | A step of XADD without LOCK that faults, from a fast or a legacy entry decoded in any state, is precise if and only if the operand address is refused, the operand cannot be read, or the new register and flags equal the old ones |
| Xadd.XaddFaultsIff | cpueaxh/cpu/executor.hpp:300-346 | With a good operand address that step faults if and only if the operand cannot be read or cannot be written |
| Xadd.LockedXaddIsGuarded | cpueaxh/cpu/decoder.hpp:37-44 | With LOCK the entry is not marked, and a step that faults brings every scalar field but CR2 back |
| Xadd.XaddReplays | cpueaxh/cpu/decoder.hpp:1190 | Entries of XADD decoded in any two states, with a fast handler or without, do exactly the same to every machine at that RIP and mode |
| NoFaultMarks.MarkedWhateverIff | cpueaxh/cpu/decoder.hpp:29-160 | A two-byte opcode is marked as never faulting whatever its operand if and only if its second byte is in column 4 or 5 of the first rows, 1E, 1F, 8D, C0, C1, C8 to CF or D0 to D3, there is no LOCK, and for 8D no 66 |
| NoFaultMarks.SparedWhateverIff | cpueaxh/cpu/dispatch_helpers.hpp:264-301 | It runs without scalar and vector snapshot whatever its operand if and only if that byte is 0D, 1E, 1F, 8D, C0, C1 or C8 to CF, under the same prefixes |
| Xadd.DecodeXaddInstruction | cpueaxh/instructions/xadd.hpp:192-278 | The decoder raises and sets exactly what the parse of the bytes says |
| Xadd.ExecuteXadd | cpueaxh/instructions/xadd.hpp:108-131 | Read, flags, register, store: the body on the context is the exchange function |
| Witnesses.FaultLeavesRegister | cpueaxh/instructions/xadd.hpp:108-131 | XADD on a page that can be read and not written meets the conditions, faults, and is not precise |
| Leave.DecodeLeaveInstruction | cpueaxh/instructions/leave.hpp:132-186 | The prefix loop with REX left to 64-bit code, the faults and both sizes are those of the parse and of the state |
| Leave.ExecuteLeave | cpueaxh/instructions/leave.hpp:188-226 | Read at the frame pointer, then set both pointers, as wide as the captured sizes say |
| Leave.LeaveMoves | cpueaxh/instructions/leave.hpp:188-226 | Where the frame can be read, RSP becomes the address behind it at the stack width, its upper bits kept, RBP the value found there at the operand size, and nothing else changes; in 64-bit code RSP is RBP plus two or eight |
| Leave.LeaveFaults | cpueaxh/instructions/leave.hpp:188-226 | Otherwise it faults as that one read does and changes nothing; the qword form on a 16-bit stack raises #GP |
| HandlerBytes.LeaveFromBytes | cpueaxh/instructions/leave.hpp:132-226 | C9 behind any prefixes runs LEAVE at the operand size that 66 and the mode give and the stack width that the mode, SS.B and 67 give, or raises #UD with LOCK |
| Leave.BodiesAgree | cpueaxh/instructions/leave.hpp:188-226 | With a 16-bit and a 32-bit stack LEAVE does the same if and only if, where both frames can be read, they hold the same value and give the same RSP, and otherwise the two frame pointers are equal |
| Leave.LeaveReplaysIff | cpueaxh/instructions/leave.hpp:228-240 | Entries of one LEAVE decoded in two states make the same step of a machine if and only if it is in 64-bit code, SS.B agreed, LOCK is there, or the stack size is indifferent |
| Leave.LeaveReplays | cpueaxh/cpu/decoder.hpp:1176 | Where SS.B agreed or is not looked at, entries of LEAVE decoded in any two states do the same to every machine at that RIP and mode |
| FsBase.DecodeFsGsBaseInstruction | cpueaxh/instructions/fsgsbase.hpp:25-93 | The prefix loop and the tests, CR4 among them, raise and set exactly what the decode function says |
| FsBase.ExecuteFsGsBase | cpueaxh/instructions/fsgsbase.hpp:95-106 | The base of FS or GS goes to the register, without a test |
| FsBase.BaseIsRead | cpueaxh/instructions/fsgsbase.hpp:95-106 | Reg field 0 reads the base of FS and 1 that of GS into the register of rm and REX.B, whole with REX.W and as a zero-extended dword without; nothing else changes |
| HandlerBytes.BaseFromBytes | cpueaxh/instructions/fsgsbase.hpp:25-106 | F3 0F AE with other prefixes among it reads the base if and only if there is no LOCK, 66 or F2, the code segment is long, the feature and CR4.FSGSBASE are there and ModRM has a register operand under reg 0 or 1; else it raises #UD |
| FsBase.BaseReplaysIff | cpueaxh/instructions/fsgsbase.hpp:108-120 | Entries of one RDFSBASE or RDGSBASE decoded in two states make the same step if and only if the bytes or the mode forbid the instruction, CR4.FSGSBASE agreed at decoding, or it is set now |
| FsBase.BaseReplays | cpueaxh/cpu/decoder.hpp:1199 | Where CR4.FSGSBASE agreed, their entries decoded in any two states do the same to every machine at that RIP and mode |
| Moffs.DecodeMoffsInstruction | cpueaxh/instructions/mov.hpp:608-874 | For A0 to A3: prefixes, offset, segment base and address check are those of the decode function |
| Moffs.ExecuteMoffs | cpueaxh/instructions/mov.hpp:413-451 | The loads and stores of AL, AX, EAX and RAX at the captured address |
| Moffs.MoffsMoves | cpueaxh/instructions/mov.hpp:413-451 | A0 and A1 put the value at the address into AL, AX, EAX or RAX and change nothing else, A2 and A3 store that part of RAX there |
| HandlerBytes.DirectFromBytes | cpueaxh/instructions/mov.hpp:608-874 | A0 to A3 with an offset as wide as addresses are, behind any prefixes, access the offset on top of the base of DS or of the override in force, or raise #UD with LOCK and #SS or #GP outside the canonical range |
| Moffs.LoadReplaysIff | cpueaxh/instructions/mov.hpp:1073-1080 | Entries of one direct load decoded in two states make the same step if and only if the address was refused, or both addresses read the same or fail with the same account |
| Moffs.MoffsReplays | cpueaxh/cpu/decoder.hpp:1136 | Where the base of DS agreed or is not looked at, entries of A0 to A3, stores too, decoded in any two states do the same to every machine at that RIP and mode |
| Moffs.PrefixDroppedIff | cpueaxh/instructions/mov.hpp:868-872 | A fresh entry of a direct load makes the step its legacy handler would make if and only if the address without the segment prefix reads like the address with it |
| StaleEntries.LeaveHitIff | cpueaxh/cpu/executor.hpp:448-469 | A hit on LEAVE is the step of an engine without a cache if and only if the code is 64-bit, SS.B is what it was at decoding, LOCK is there, or the stack size is indifferent now |
| StaleEntries.BaseHitIff | cpueaxh/cpu/executor.hpp:448-469 | A hit on RDFSBASE or RDGSBASE is that step unless the instruction is allowed, CR4.FSGSBASE was set at decoding and is clear now |
| StaleEntries.LoadHitIff | cpueaxh/cpu/executor.hpp:448-469 | A hit on a direct load of MOV is that step if and only if the address was refused at decoding, or the address of then and the address of now read the same |
| StaleEntries.OpenedIsWellBehaved | cpueaxh/cpu/decoder.hpp:1060-1234 | The instruction set with LEAVE, RDFSBASE, RDGSBASE and the direct forms of MOV meets the whole contract of the open handlers |
| StaleEntries.StaleStackSize | cpueaxh/cpu/inst_cache.hpp:39-51 | In it, over a sound cache, a LEAVE decoded with a 32-bit stack segment and run with a 16-bit one is not transparent, and the machine is not settled |
| StaleEntries.StaleEnable | cpueaxh/cpu/inst_cache.hpp:39-51 | Nor is an RDFSBASE after CR4.FSGSBASE was cleared |
| StaleEntries.StaleDataBase | cpueaxh/cpu/inst_cache.hpp:39-51 | Nor is a MOV AL, [0] after the base of DS changed |
| StaleEntries.LostPrefix | cpueaxh/instructions/mov.hpp:1073-1080 | MOV AL, FS:[0] with a base in FS: the fresh entry and its legacy handler make different steps |
| LoopRefinement.ShortCutPreservesRuns | cpueaxh/cpueaxh.cpp:1463-1570 | The loop with a sound cache and its short cut ends in the same machine, stop request, hook and escape calls, count and result as the loop that fetches, classifies and decodes at every turn, over every run in which hooks leave RIP, windows are fetchable, code keeps its version and decoders find what they found before |
| LoopRefinement.CoreIsMeaning | cpueaxh/cpueaxh.cpp:1489-1568 | With any sound cache on a settled machine, taking the short cut or not, an instruction of the loop does what trying the escapes on the window and else running a fresh decode would do |
| LoopRefinement.SlowIsMeaning | cpueaxh/cpueaxh.cpp:1532-1568 | The slow path of the loop, behind any sound cache on a settled machine, has that meaning |
| LoopRefinement.ShortCutIsMeaning | cpueaxh/cpueaxh.cpp:1498-1529 | So has the short cut |
| LoopRefinement.MarkedIsNoEscape | cpueaxh/cpu/decoder.hpp:196-210 | Bytes decoded to an entry marked as no escape are refused by the classifier |
| LoopRefinement.MeaningResting | cpueaxh/cpueaxh.cpp:1489-1568 | Escape callbacks and steps leave the machine in a state between instructions |
| LoopRefinement.MovedRipPoisonsCache | cpueaxh/cpueaxh.cpp:1473-1568 | After a hook moved RIP and the loop missed, the cache is still sound if and only if the bytes at the new RIP are those at the old address |
| LoopRefinement.MovedRipRunsOldCode | cpueaxh/cpueaxh.cpp:1473-1568 | Whoever reaches the new RIP later, in that mode and under that version, runs the instruction of the old address, whatever memory holds |
| LoopRefinement.MovedRipMissesBreakpoint | cpueaxh/cpueaxh.cpp:1473-1568 | With a jump at the old address an INT3 at the new RIP raises no #BP, which an engine without a cache does raise |
| Witnesses.MovedRipIsSeen | cpueaxh/cpueaxh.cpp:1473-1568 | A machine moved from a jump to an INT3 meets the conditions and misses the breakpoint |
| LoopRefinement.EscapesAreCalled | cpueaxh/cpueaxh.cpp:1489-1568 | Whatever a sound cache holds, a turn of the loop on a settled machine calls exactly the callback due to the current bytes at its address, once, and none if none is due |
| ObservedRuns.WatchedIsDirect | cpueaxh/cpueaxh.cpp:1417-1571 | Under hooks that only watch, and without escapes, the hooked loop makes the run of the loop without hooks: same machine, same count, same result, whatever the two caches hold, as long as windows are fetchable, code keeps its version and decoders find what they found before; of the open arms of the ladder it assumes that they refuse the escape opcodes left to them |
| RunLoop.DispatchCodeHooks | cpueaxh/cpueaxh.cpp:959-992 | Stopping when the counter is used up makes the same calls in the same order, on the same machine, as scanning the whole table |
| RunLoop.NothingLeft | cpueaxh/cpueaxh.cpp:964-979 | Past the last hook of a kind the rest of the scan calls nobody |
| RunLoop.OutcomeNamesTheFault | cpueaxh/cpueaxh.cpp:1050-1078 | Encoding a page fault into its error code and translating it back names the access refused and why |
| RunEnds.DirectEnds | cpueaxh/cpueaxh.cpp:1431-1461 | A run without hooks that ends has executed, one behind the other, the instructions it counts, each started with the count not reached, RIP not at the address to stop at and no stop asked for; it ends well only where one of the three holds, and else with the error of the one instruction that failed |
| RunEnds.DirectStops | cpueaxh/cpueaxh.cpp:1431-1461 | The first place where one of the three holds, behind instructions that all succeed, ends the run there |
| RunEnds.LoopEnds | cpueaxh/cpueaxh.cpp:1463-1571 | So with hooks and escapes, turn by turn; a hook in front of a turn may also end the run, and then a stop has been asked for |
| RunEnds.LoopStops | cpueaxh/cpueaxh.cpp:1463-1471 | And the first place where one of the three holds ends it |
| RunEnds.NothingRuns | cpueaxh/cpueaxh.cpp:1436-1437 | At the address to stop at both loops end at once, well, with nothing executed and nothing called |
| RunEnds.StartAtUntil | cpueaxh/cpueaxh.cpp:1408-1439 | A start there changes RIP and clears the exception, and does nothing else |
| RunEnds.StartEnds | cpueaxh/cpueaxh.cpp:1401-1574 | A run begins at the address given, or where RIP stands if that is zero, without an exception, and ends well only with the count reached, at the address to stop at, or when a stop was asked for |
| RunEnds.HooksCalled | cpueaxh/cpueaxh.cpp:959-992 | A scan calls the used hooks of its kind whose bounds cover the address, each once, in the order of the slots, and no others |
| Emulation.CountBoundsTurns | cpueaxh/cpueaxh.cpp:1463-1470 | With a count the loop ends within one turn more than the instructions left, and never executes more than the count |
| Emulation.MoreTurns | cpueaxh/cpueaxh.cpp:1463-1470 | A run that ends keeps its ending for every larger number of turns, with or without a count |
| Emulation.CountEnds | cpueaxh/cpueaxh.cpp:1431-1470 | With a count every run of either loop ends, after at most that many instructions |
| Emulation.Start | cpueaxh/cpueaxh.cpp:1401-1574 | For every run that ends, the call sets RIP, clears the exception and makes the direct or the hooked run, as the hook counters and the escape list say; `RunEnds.StartEnds` says where such a run starts and ends |
| Emulation.RunHooked | cpueaxh/cpueaxh.cpp:1463-1571 | The hooked loop on engine, context and cache is the loop function, with a count or without, whose turns and endings `RunEnds.LoopEnds` fixes |
| Emulation.RunDirect | cpueaxh/cpueaxh.cpp:1431-1461 | So is the loop without hooks and escapes, with `RunEnds.DirectEnds` |
| Emulation.TryDispatchEscape | cpueaxh/cpueaxh.cpp:994-1048 | Classify, look up, call and import, or raise the exception of an escape nobody handles |
| Emulation.HasAnyHook | cpueaxh/cpueaxh.cpp:1417-1423 | Some counter is not zero exactly when some slot of the table is used |
| Escapes.EscapesAreCandidates | cpueaxh/cpueaxh.cpp:507-609 | The classifier accepts candidate opcodes only, for every byte string, mode and prefix length |
| Escapes.EscapeFits | cpueaxh/cpueaxh.cpp:507-609 | Every classified instruction has an id from 1 to 19 and a size between 1 and the number of bytes fetched |
| Escapes.PrefixedEscape | cpueaxh/cpueaxh.cpp:507-609 | Behind any prefixes of the mode and whatever follows, each of the nineteen escape instructions is classified under its own id at its full length; RDSSP must have no LOCK, and REX.W turns its dword form into the qword form |
| Escapes.ClassifyEscapeInstruction | cpueaxh/cpueaxh.cpp:507-609 | The classifier with its own scans for RDRAND and RDSSP is the classification function |
| Escapes.IsRdrand | cpueaxh/instructions/rdrand.hpp:19-45 | The scan accepts 0F C7 /6 with a register operand after any prefixes |
| Escapes.IsRdssp | cpueaxh/instructions/rdssp.hpp:5-60 | The scan accepts 0F 1E /1 with a register operand after prefixes that hold F3 and not F0, and reports the W bit of the last REX byte |
| Escapes.HandlerIsScan | cpueaxh/cpueaxh.cpp:415-432 | With ids in range a classified instruction gets a callback exactly when an entry with its id covers the address |
| Escapes.EscapeSteps | cpueaxh/cpueaxh.cpp:1005-1025 | Behind an escape whose callback did not fail stand the registers, flags, segments, tables, vector state and exception of the context it edited; RIP is the one it set, or the next instruction if it set none, and the size is recorded either way |
| Escapes.ContextInCoherent | cpueaxh/cpueaxh.cpp:296-326 | Importing a context makes the mode key coherent whatever the callback did to it |
| Registry.ReachableHealthy | cpueaxh/cpueaxh.cpp:1650-1757 | After any calls in any order handles are unique over both tables and below the next one; with ids in range, escape ids are unique and the index always answers like a scan |
| Registry.IndexIsScanIff | cpueaxh/cpueaxh.cpp:401-432 | In every table that can come about, the index finds what a scan finds if and only if the scan finds nothing, or the id is in range and its first entry lies before position 255 with no other of that id between |
| Registry.TidyIndexIsScan | cpueaxh/cpueaxh.cpp:401-432 | Distinct ids in range leave at most 19 entries, so the index is exactly a scan |
| Registry.UnknownIdIsLost | cpueaxh/cpueaxh.cpp:1728-1753 | An id above the last known one is accepted and never found |
| Registry.DuplicatesComeAbout | cpueaxh/cpueaxh.cpp:1728-1753 | Adding such an id twice leaves two entries under it |
| Registry.DeleteUndoesAdd | cpueaxh/cpueaxh.cpp:1650-1757 | Deleting what was just added restores hook table and escape list |
| Registry.CountAt | cpueaxh/cpueaxh.cpp:434-447 | Changing one slot moves the number of used slots of a kind by exactly what that slot contributed |
| Registry.Engine.AddHookEntry | cpueaxh/cpueaxh.cpp:1650-1688 | The first free slot is taken and its counter raised; every counter is again the number of used slots of its kind |
| Registry.Engine.Remove | cpueaxh/cpueaxh.cpp:1694-1726 | The hook or else the escape with the handle goes, counters and index follow |
| Registry.Engine.AddEscapeEntry | cpueaxh/cpueaxh.cpp:1728-1753 | An id that is already found is refused, else the entry is appended and the index rebuilt |
| Registry.Engine.RebuildIndex | cpueaxh/cpueaxh.cpp:401-413 | The rebuilt index holds, for every id, one more than the last position below 255 that has it, or zero |
| Registry.Engine.Lookup | cpueaxh/cpueaxh.cpp:415-432 | The lookup through the index is the indexed entry |
| AluExecute.FastIsLegacy | cpueaxh/instructions/add.hpp:844-863 | For every machine and every cleanly decoded ADD, SUB, AND or CMP the fast and the legacy handler end in the same state up to the rollback of a fault, except in one case |
| AluExecute.FastDiffers | cpueaxh/instructions/cmp.hpp:754-773 | In that case, a RIP-relative operand whose address is canonical only with the instruction length, they never agree |
| AluExecute.CornerIsMet | cpueaxh/instructions/add.hpp:852-863 | ADD byte [RIP - 1], AL at the first address of the upper half is such a case, in every 64-bit context without a segment override |
| AluExecute.ExecuteFrame | cpueaxh/instructions/add.hpp:753-842 | A body changes registers, flags, memory, CR2 and the exception only, and no memory when it faults |
| AluExecute.ExecutePending | cpueaxh/instructions/add.hpp:753-842 | Under a pending exception a body changes neither memory nor flags nor the exception |
| AluExecute.RegisterFormsAreSafe | cpueaxh/instructions/add.hpp:753-842 | Register forms never fault and never touch memory |
| AluExecute.ExecuteAlu | cpueaxh/instructions/add.hpp:753-842 | The executor reads both operands, sets the flags and writes back, step by step as the body function says |
| AluDecode.DecodeAlu | cpueaxh/instructions/add.hpp:551-746 | The prefix loop, the opcode switch, ModRM, SIB, displacement and immediate raise and set exactly what the parse of the bytes says |
| AluDecode.DecodeModrm | cpueaxh/instructions/add.hpp:487-549 | Fields, displacement and LOCK check of a ModRM operand |
| AluDecode.ScanPrefixBytes | cpueaxh/instructions/add.hpp:562-604 | The prefix loop consumes the prefixes and leaves the REX, operand-size and address-size bits of the last ones |
| Addressing.LengthMatters | cpueaxh/cpu/helper.hpp:258-356 | The instruction length moves RIP-relative addresses and no others |
| Addressing.SameAddress | cpueaxh/cpu/helper.hpp:258-372 | An operand address depends on registers, segments, RIP and REX bits only |
| Operands.OperandRoundTrip | cpueaxh/instructions/add.hpp:487-548 | A memory operand written as base, index, scale and displacement, against RIP, or as one of the eight 16-bit forms, is given back by decoding its ModRM, SIB and displacement bytes, and those bytes only are taken |
| Operands.OperandAddress | cpueaxh/cpu/helper.hpp:258-372 | Its linear address is base plus index times 2^scale plus displacement modulo the address size, on top of the base of its segment: without base, without index, with short, long or no displacement, against RIP, and for the eight 16-bit forms as the code computes them |
| Bits.BytesInOrder | cpueaxh/cpu/helper.hpp:549-580 | Byte i of a value in memory is its digit i to base 256, least significant first |
| LinearMemory.ReadMemory | cpueaxh/cpu/memory.hpp:280-443 | A 2-, 4- or 8-byte read, through one pointer or byte by byte, returns the little-endian value of its bytes, or faults at the first byte it may not read |
| LinearMemory.WriteMemory | cpueaxh/cpu/memory.hpp:305-523 | A 2-, 4- or 8-byte write changes all its bytes or none |
| LinearMemory.GetContiguousPtr | cpueaxh/cpu/memory.hpp:183-262 | A pointer, or the first fault, or, where byte k is the first that can be accessed but is out of line with those before it, #PF at byte k if asked to fault on a split and nothing if not |
| LinearMemory.PointerIffContiguous | cpueaxh/cpu/memory.hpp:183-262 | There is a pointer if and only if every byte can be accessed and all lie in line in the host |
| LinearMemory.StoreChangesExactly | cpueaxh/cpu/memory.hpp:305-523 | With unaliased host bytes a write that goes through changes the bytes it names, in little-endian order, and no others |
| LinearMemory.LoadAfterStore | cpueaxh/cpu/memory.hpp:280-523 | A value read back is the value written |
| LinearMemory.LoadAfterOther | cpueaxh/cpu/memory.hpp:280-523 | A write leaves every access to other bytes as it was |
| LinearMemory.FaultReport | cpueaxh/cpu/memory.hpp:8-29 | On #PF, CR2 is the lowest byte that faults and the error code tells presence, access and privilege; a non-canonical byte raises #GP(0) |
| LinearMemory.ResolveWrite | cpueaxh/cpu/helper.hpp:667-678 | One pointer for each byte of a write, or the first fault and no pointer |
| LinearMemory.CommitBytes | cpueaxh/cpu/helper.hpp:680-688 | Committing stores each byte at its pointer |
| Stack.PushValue | cpueaxh/cpu/helper.hpp:860-946 | A push at any stack width stores below the stack pointer, then moves it; a push that faults does neither |
| Stack.PopValue | cpueaxh/cpu/helper.hpp:1109-1198 | A pop reads at the stack pointer, then moves it by the slot, keeping the upper bits of RSP |
| Stack.PushTwoValues | cpueaxh/cpu/helper.hpp:982-1038 | Both slots are resolved before either is written |
| Stack.PeekValues | cpueaxh/cpu/helper.hpp:1072-1107 | The loop reads the slots ahead of the stack pointer and reports the pointer behind them |
| Stack.PopAfterPush | cpueaxh/cpu/helper.hpp:860-1198 | Push then pop returns the value and the whole of RSP |
| Stack.PushTwoIsTwoPushes | cpueaxh/cpu/helper.hpp:982-1038 | Pushing two values is two pushes if neither faults, and changes no byte and no register if one does |
| Stack.PushTwoHolds | cpueaxh/cpu/helper.hpp:982-1038 | After the pair the second value is on top, the first behind it, and the stack pointer at the top, at any stack width |
| Stack.PeekAllIsPops | cpueaxh/cpu/helper.hpp:1072-1107 | Peeking n values is popping n values: same values, same fault, same final pointer |
| InlineSteps.PushMoves | cpueaxh/cpu/helper.hpp:860-952 | A push writes at the stack pointer less the size, at 16, 32 or 64 bits as mode and SS.B say, and leaves the pointer there, the bits of RSP above kept; or it faults as that write does and changes nothing |
| InlineSteps.PopMoves | cpueaxh/cpu/helper.hpp:1109-1199 | A pop reads at the stack pointer and moves it up by the size in the same way, or faults as that read does |
| Regions.RequestExact | cpueaxh/memory/manager.hpp:633-819 | Unmapping, protecting or setting attributes over a range does all of it or nothing, says which, changes what is seen inside the range byte for byte and nothing outside, and keeps the version contract |
| Regions.EditExact | cpueaxh/memory/manager.hpp:644-688 | The loop that splits region after region changes exactly the range, and moves the code version, at most once a page |
| Regions.ReplaceExact | cpueaxh/memory/manager.hpp:477-511 | Replacing a region by its pieces, copied or shared, changes what is seen in the chosen part only and keeps the list in order |
| Regions.MapExact | cpueaxh/memory/manager.hpp:575-627 | Over any table a mapping succeeds if and only if it is aligned, does not wrap and meets no region up to its 64-bit end; it then shows the new bytes up to that end, leaves the rest as it was and moves the code version |
| Regions.NeighboursDecide | cpueaxh/memory/manager.hpp:435-458 | Looking at the two neighbours of the insertion point decides overlap with the whole list, regions and ranges that reach the top included |
| Regions.TopIsLost | cpueaxh/memory/manager.hpp:403-458 | Over any table, an accepted mapping that reaches the top of the address space changes nothing anyone sees, and is accepted again |
| Regions.MappedIsSeenIff | cpueaxh/memory/manager.hpp:575-627 | An accepted mapping is visible if and only if it ends below the top |
| Regions.LookupIsQuery | cpueaxh/memory/manager.hpp:879-917 | The checked pointer of the region list is the page lookup of the rest of the model |
| Regions.FindRegionIndex | cpueaxh/memory/manager.hpp:403-423 | Binary search finds the region that holds an address, or none does |
| Regions.FindInsertionIndex | cpueaxh/memory/manager.hpp:388-401 | Binary search finds the first region at or above an address |
| Regions.Manager.Query | cpueaxh/memory/manager.hpp:825-877 | However the page cache came to be filled, a query answers what the region list says |
| Regions.Manager.ChangeRange | cpueaxh/memory/manager.hpp:633-819 | The in-place change of the list is the request function, and leaves list and page cache valid |
| Regions.Manager.Map | cpueaxh/memory/manager.hpp:575-627 | Mapping in place is the mapping function |
| Regions.Manager.CheckRangeMapped | cpueaxh/memory/manager.hpp:513-540 | Hopping from region to region decides whether every address of the range is mapped |
| Regions.Manager.SetHostPassthrough | cpueaxh/memory/manager.hpp:203-208 | Switching passthrough drops every cached page and moves the code version |
| MemoryManagement.MemoryManager.GetPtrChecked | cpueaxh/memory/manager.hpp:879-917 | The status and pointer of an access: unmapped, protected, or the byte, redirected by the first patch over it when accesses pass through |
| MemoryManagement.MemoryManager.BumpCodeVersion | cpueaxh/memory/manager.hpp:151-159 | The version moves and is never zero |
| Atomic.LockIsAtomic | cpueaxh/cpu/memory.hpp:584-649 | For the LOCK forms that use the loop (INC, DEC, OR, XOR, XADD, XCHG, BTS, BTR, BTC), under every interleaving, with first reads stale or torn, the word is the fold of the completed operations in the order of their swaps, and each returned what its predecessors had left |
| Atomic.RunsConserve | cpueaxh/cpu/memory.hpp:620-678 | Over every run the additions of the loop, those of LOCK INC and LOCK XADD, lose no operand modulo the size, and XCHG keeps the values put in plus the first equal to those returned plus the last |
| Atomic.AddsAllCount | cpueaxh/cpu/memory.hpp:655-657 | The fold of additions is the initial word plus all operands modulo 2^size |
| Atomic.ExchangesConserve | cpueaxh/cpu/memory.hpp:675-678 | The fold of exchanges conserves the multiset of values |
| Atomic.RetryMeansProgress | cpueaxh/cpu/memory.hpp:631-640 | A thread whose swap is refused after it had seen the word has been overtaken by another thread's completed change |
| Atomic.TwoTriesSuffice | cpueaxh/cpu/memory.hpp:631-640 | Left alone a thread completes in two tries, whatever it read first |
| Atomic.AtomicRmw | cpueaxh/cpu/memory.hpp:620-649 | The loop acts on the value found at its successful try and returns it, within two tries more than the writes of others |
| PlainRmw.LockIsIgnored | cpueaxh/instructions/add.hpp:551-746 | For the memory forms of ADD, SUB and AND that store, decoding with a LOCK prefix gives what decoding without gives |
| PlainRmw.BodyIsPlain | cpueaxh/instructions/add.hpp:753-842 | What their body stores is the operation done on what it loaded |
| PlainRmw.CarryIsPlain | cpueaxh/instructions/adc.hpp:126-131 | What ADC and SBB store is the addition or subtraction of the operand with the carry, done on what they loaded |
| PlainRmw.PlainFoldIff | cpueaxh/instructions/add.hpp:42-119 | Over every run of such loads and stores by any number of threads, the word is all along the fold of the completed operations if and only if no store that changes the outcome falls between a load and its store |
| PlainRmw.PlainAddsIff | cpueaxh/instructions/add.hpp:42-119 | After any run of additions the word is the first one plus the operands less what was overwritten, so they add up if and only if those losses cancel modulo the size |
| PlainRmw.LostUpdate | cpueaxh/instructions/add.hpp:42-119 | Two threads that load and then store lose the first operand, unless it is zero modulo the size |
| Calls.NearFaultChangesNothing | cpueaxh/instructions/call.hpp:8-80 | A near CALL that faults has changed no memory byte, no register and not RIP |
| Calls.FarFaultChangesNothing | cpueaxh/instructions/call.hpp:85-272 | So has a far CALL, through memory or direct |
| Calls.FarCallEnters | cpueaxh/instructions/call.hpp:85-272 | A far CALL that goes through enters a present code segment the caller may enter, at the caller's privilege, at the offset cut to its size, with both halves of the return address pushed, and leaves the mode key coherent |
| Calls.FarFrame | cpueaxh/instructions/call.hpp:85-272 | The frame holds the masked return address on top and the old selector behind it, and RSP points to it, at every slot size and stack width |
| Calls.CallNearValue | cpueaxh/instructions/call.hpp:8-80 | Validate, push, load, with an exit after each fault |
| Calls.LoadDescriptorFromTable | cpueaxh/cpu/helper.hpp:7-49 | #GP past the limit, else the fields of the two dwords |
| Calls.DescriptorRoundTrip | cpueaxh/cpu/helper.hpp:30-48 | A descriptor laid out in its two dwords is read back field by field, with the limit in bytes |
| Calls.CallFarThroughMemory | cpueaxh/instructions/call.hpp:85-201 | Offset first, then selector, then the common checks: the CALL on the context is the function whose pointer `FarPointers.PointerInMemory` fixes byte by byte |
| FarPointers.PointerInMemory | cpueaxh/instructions/call.hpp:85-105 | The operand is the offset in two, four or eight bytes with the selector in the two behind it, least significant byte first; if any of them cannot be read, the first such byte faults |
| FarPointers.DescriptorInMemory | cpueaxh/cpu/helper.hpp:7-49 | The descriptor is entry selector / 8 of the GDT, or of the LDT if bit 2 is set: its eight bytes give every field, past the limit #GP names the selector, and the first byte that cannot be read faults |
| FarPointers.FarCallLands | cpueaxh/instructions/call.hpp:85-272 | From a selector over a descriptor in memory, which exception with which error each refusal raises; else CS is what the descriptor says with the current privilege in the selector, RIP is the offset cut to its size, and old selector and return address are pushed in slots of two, four or eight bytes |
| FarPointers.DescriptorOutOfReach | cpueaxh/instructions/call.hpp:107-117 | A null selector raises #GP(0), one past the table #GP with the selector, an unreadable entry its own fault |
| FarPointers.CallThroughMemoryLands | cpueaxh/instructions/call.hpp:85-201 | Whole: a far CALL through memory that goes through ends at the offset its pointer holds, in the segment its selector names in the chosen table |
| FarPointers.NearCallLands | cpueaxh/instructions/call.hpp:8-80 | A relative CALL goes to return address plus displacement at the operand size and pushes the return address; it faults on a target that is not canonical, and as its push does |
| Calls.EnterFarSegment | cpueaxh/instructions/call.hpp:85-272 | The checks of a far target in their order, the two pushes, then CS, the mode key and RIP |
| Returns.CallsAndReturnsBalance | cpueaxh/cpu/executor.hpp:131-155 | Over every run of 64-bit near CALLs and plain RETs that do not fault, each RET returns to its CALL and RSP is eight bytes per open call below the start |
| Returns.ReturnsMatchCalls | cpueaxh/cpu/executor.hpp:131-200 | With anything between that leaves the slots alone, each near RET lands on the return address of the CALL whose slot it pops, and releases the slot plus its immediate |
| Returns.ReturnsTo | cpueaxh/cpu/executor.hpp:157-200 | A near RET at a held frame that does not fault jumps to the saved address and touches no memory |
| Returns.CallPushes | cpueaxh/instructions/call.hpp:8-18 | A near CALL that goes through stores the return address below RSP and jumps |
| ModeKey.KeyNeverLags | cpueaxh/cpu/inst_cache.hpp:39-71 | In every state reached by imports, restores, far CALLs and key reads, a valid key is the key of the state and no blank slot answers to it |
| ModeKey.RawWriteLagsIff | cpueaxh/cpueaxh.cpp:940-945 | Writing CS.DB and CS.L through the register interface breaks that exactly when the key was cached and a bit changes |
| CpuState.CpuContext.constructor | cpueaxh/cpu/init.hpp:7-48 | Initialisation gives a coherent key, no exception and no override, in 64-bit code unless compatibility mode is asked for |
| CpuState.CpuContext.ReadModeKey | cpueaxh/cpu/inst_cache.hpp:53-71 | Reading primes the key; on a coherent context it is the key of the state |
| CpuState.CpuContext.RaiseException | cpueaxh/cpu/def.h:423-430 | The first exception wins |
| CpuState.CpuContext.AssignRipChecked | cpueaxh/cpu/def.h:568-583 | RIP is loaded masked, or #GP(0) is raised when 64-bit code would leave the canonical range |
| CpuState.CpuContext.RestoreScalarSnapshot | cpueaxh/cpu/def.h:324-366 | A restored snapshot brings back every scalar field and drops the cached key |
| CpuState.CanonicalRange | cpueaxh/cpu/def.h:562-566 | The shift-and-compare test accepts exactly the addresses below 2^47 and from 2^64 - 2^47 on |
| Flags.CompareThenBranch | cpueaxh/cpu/executor.hpp:204-231 | After the flag update of a comparison at any width the sixteen conditions decide exactly overflow, unsigned and signed order, equality, sign and parity, and their negations |
| Flags.AdcChainAdds | cpueaxh/instructions/adc.hpp:126-131 | For limb arrays of any length one pass through CF is addition of the whole numbers with carry in and out |
| Flags.AdcChainOverflow | cpueaxh/cpu/calc.hpp:153-161 | OF after the last limb is exactly signed overflow of the whole numbers |
| Flags.AddStatus | cpueaxh/cpu/calc.hpp:30-73 | The carry test is unsigned overflow and the sign test signed overflow, with or without carry in, at four widths; `Flags.AddFlagsMean` says which flag takes which |
| Flags.AddFlagsMean | cpueaxh/cpu/calc.hpp:30-73 | After an addition CF is a carry out of the width, OF a signed sum that does not fit, AF a carry out of the low digit, ZF, SF and PF those of the sum modulo the width, and every other bit of RFLAGS is kept |
| Flags.SubFlagsMean | cpueaxh/cpu/calc.hpp:75-118 | After a subtraction or comparison the same with CF the borrow, AF the borrow of the low digit and OF a signed difference that does not fit |
| Flags.AdcFlagsMean | cpueaxh/cpu/calc.hpp:120-161 | After ADC the same of the sum with the carry in |
| Flags.LogicFlagsMean | cpueaxh/cpu/calc.hpp:244-278 | After AND CF and OF are clear, AF is kept, ZF, SF and PF are those of the result |
| Flags.SubStatus | cpueaxh/cpu/calc.hpp:75-117 | OF of a subtraction is signed overflow, and sign differing from OF is signed less |
| Flags.UpdateSets | cpueaxh/cpu/calc.hpp:16-73 | A flag update sets the six flags independently and leaves the other bits of RFLAGS alone |
| Flags.CalcParity | cpueaxh/cpu/calc.hpp:8-14 | The folding of the parity loop answers whether the byte has an even number of ones |
| Bmi.Pext | cpueaxh/instructions/bmi.hpp:194-206 | The extract loop ends and returns the masked source bits packed downwards |
| Bmi.Pdep | cpueaxh/instructions/bmi.hpp:208-220 | The deposit loop ends and returns the source bits spread over the mask |
| Bmi.GatherByRank | cpueaxh/instructions/bmi.hpp:194-206 | A selected bit lands at the number of mask bits below it |
| Bmi.ScatterByRank | cpueaxh/instructions/bmi.hpp:208-220 | A mask position receives the source bit of its rank, other positions are clear |
| Bmi.DepositOfExtract | cpueaxh/instructions/bmi.hpp:194-220 | pdep(pext(x, m), m) is x & m |
| Bmi.ExtractOfDeposit | cpueaxh/instructions/bmi.hpp:194-220 | pext(pdep(x, m), m) is x modulo 2^popcount(m) |
| BitFields.BextrBits | cpueaxh/instructions/bmi.hpp:170-180 | Each bit of BEXTR is the source bit start places up, within length and operand |
| BitFields.BzhiBits | cpueaxh/instructions/bmi.hpp:182-192 | BZHI keeps the bits below the index, and CF tells an index past the operand |
| BitFields.RotateBits | cpueaxh/instructions/bmi.hpp:159-168 | The rotation moves each bit around the operand |
| BitString.ActsOnOneBit | cpueaxh/instructions/bt.hpp:258-325 | BT, BTS, BTR and BTC with a signed index read and change exactly the bit at that index from the base: CF is the old bit, every other bit of memory stays; BT needs to read only |
| BitString.FlipTwiceRestores | cpueaxh/instructions/bt.hpp:258-325 | BTC twice restores every byte of memory |
| BitString.ElementIsString | cpueaxh/instructions/bt.hpp:100-123 | Element address plus bit is the byte and bit of the signed index from the base, modulo 2^64 |
| BitString.IndexSplits | cpueaxh/instructions/bt.hpp:109-116 | The index is width times element plus bit by floor division, for every 64-bit index down to the smallest |
| BitString.RegisterIndexSigned | cpueaxh/instructions/bt.hpp:100-107 | A register index is the signed number of the operand width that the register holds |
| BitString.ImmediateStays | cpueaxh/instructions/bt.hpp:274-287 | The immediate form addresses the operand itself and a bit within it |
| BitString.ApplyBit | cpueaxh/instructions/bt.hpp:305-318 | OR, AND and XOR with the shifted one change the one bit as asked |
| BitString.ExecuteBitString | cpueaxh/instructions/bt.hpp:258-325 | The memory form on the context: read, set CF, write back unless it only tests |
| Crc32c.ChecksumIsRemainder | cpueaxh/instructions/crc32.hpp:117-131 | The mirrored accumulator is the remainder modulo 0x11EDC6F41 of the message times x^32 with the mirrored initial accumulator in front |
| Crc32c.AccumulateLinear | cpueaxh/instructions/crc32.hpp:117-131 | The checksum is linear over GF(2) in the pair of accumulator and data |
| Crc32c.AccumulateSplit | cpueaxh/instructions/crc32.hpp:117-131 | Every way to cut a message into operands gives one result |
| Crc32c.RemainderUnique | cpueaxh/instructions/crc32.hpp:117-131 | A polynomial has one remainder, so the specification determines the checksum |
| Crc32c.AccumulateByte | cpueaxh/instructions/crc32.hpp:117-123 | Eight turns of the bit loop are the byte step |
| Crc32c.AccumulateValue | cpueaxh/instructions/crc32.hpp:125-131 | An operand of 8, 16, 32 or 64 bits is consumed byte by byte, least significant first |
| Division.UDiv128 | cpueaxh/cpueaxh_platform.hpp:61-77 | The remainder is below the divisor, and quotient and remainder are exact if and only if no partial remainder reaches 2^63, in particular for every divisor up to 2^63 |
| Division.LargeDividend | cpueaxh/cpueaxh_platform.hpp:61-77 | For every dividend of 2^127 or more the result is inexact |
| Division.InexactDivision | cpueaxh/cpueaxh_platform.hpp:61-77 | 2^127 divided by 2^63 + 1 is an instance |

## Left out

- Instruction bodies other than ADD, SUB, AND, CMP, XADD, LEAVE, RDFSBASE, RDGSBASE, direct MOV, near and far CALL, near RET, Jcc, BT, BEXTR, BZHI, RORX, PEXT, PDEP and CRC32: in the step machine their handlers, probes and fast handlers are arbitrary within the contract `Transparency.WellBehaved`, which is proved for the first nine and assumed for the rest.
- ENTER, whose decoder reads SS.B as that of LEAVE does (cpueaxh/instructions/enter.hpp:12-22): it stays open, and `Decoder.Latent` counts SS.B among what it reads.
- The exact condition for the direct stores of MOV: `Moffs.MoffsReplays` covers them, `Moffs.LoadReplaysIff` is about the loads.
- Near and far CALL as steps of the step machine: the runs of `Returns` are over the CALL function and the inline RET.
- LOCK XADD as a step: `Xadd` models the form without LOCK, `Atomic` the loop behind the form with it.
- Torn loads and stores of LOCK ADD, SUB and AND: `PlainRmw` takes each load and each store as whole.
- Vector, x87 and cryptographic instructions: vector state is carried through snapshots and never computed.
- SBB, INC, DEC and the logic updates beyond AND: the same shape as the updates that are there.
- Memory hooks and invalid-access hooks, their notifications and the retry they may cause; the two code hooks are there.
- Callbacks that edit the hook table or re-enter the engine during a run.
- The wall-clock limit of a run, which the program ignores, and cpueaxh_emu_start_function, which wraps the same loop.
- Allocation failure, in the region list and in the escape list.
- Adding and deleting byte patches, and the address bounds that prefilter the patch scan.
- REX before a legacy prefix and other rules the decoders do not enforce; conformance of base-less SIB and 16-bit displacement forms is not claimed, `Operands` says what the code computes.
- Steps of XADD, LEAVE, RDFSBASE, RDGSBASE and direct MOV in numbers: `HandlerBytes` goes from their bytes to the bodies of their legacy handlers, and what those do is said in numbers (`Xadd.ExchangesAndAdds`, `Leave.LeaveMoves`, `FsBase.BaseIsRead`, `Moffs.MoffsMoves`); how a step around a handler ends is in `StepLengths.StepMovesBySize`.
- MOVS, CMPS, LODS and XLAT with a segment prefix: their probes run before the prefix is stamped and always capture DS, so that their captures agree with each other, as the contract asks, but not with their legacy handlers; both handlers are arbitrary ones here.
- LOCK BTS, BTR and BTC: `Atomic` runs their loop on one word, `BitString` models the form without LOCK.
- BT, BTS, BTR and BTC on registers, and the wrap of element addresses to 32 bits, which the program does not do.
- Far RET, IRET and far JMP.
- The host intrinsics that LOCK BT uses under write passthrough.
- Feature queries (CPUID bits): the instructions are taken as present.
- 64-bit wrap of the handle counter of hooks and escapes, and of the code version: the version contract asks that it never goes back.
- Transparency.RunTransparent: does not cover steps whose fetch window is not fetchable at the current privilege, because a hit skips that check and a miss files a fragment, nor steps of ENTER, LEAVE, RDFSBASE, RDGSBASE and direct MOV after a change of what their decoders read; HitTransparentIff, FragmentIsRun and the three theorems of `StaleEntries` say what happens then.
- LoopRefinement.ShortCutPreservesRuns: assumes that hooks before an instruction leave RIP alone, because otherwise the cache is poisoned; MovedRipPoisonsCache shows how.
- Emulation.Start: asks that the run ends within some number of turns, because without a count it need not; CountEnds shows that with one it always does.
- Emulation.RunHooked: asks the same.
- Emulation.RunDirect: asks the same.
- Transparency.HitTransparentIff: compares whole machines for hits that complete only, because a handler run after a failed fetch may leave other scratch behind; HitFaultsAgreeIff compares the exceptions of all hits, and `Fragments.FaultingHitKeeps` says what stays.
- Meanings.StepFaults: leaves out operands against RIP, where the first of the two address checks decides as well; `AluExecute.FastDiffers` says when.
- Meanings.StepMeans: asks, for operands against RIP, that this first check passes too.
- Division.UDiv128: requires high below the divisor, because its callers raise #DE first.
