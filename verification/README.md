# A verified model of js-emulator

js-emulator is a virtual 32-bit register machine with a C compiler, a linker and several generations of a small
Unix-like system. This project models its hardest parts in Dafny and proves properties of them that hold for every
input, every run or every reachable state:

- **Compiler back end** (`Machine`, `Codegen`, `Operators`, `CodegenProof`, `CodegenLabels`, `CodegenDepth`,
  `Generator`, `LazyStack`, `LazyStackProof`, `LazyRuns`, `LazyRule`, `EmittedCode`). The code generated for an
  expression computes its value and effects. The emitter's trick of deferring stores of the software stack pointer
  `__csp` refines the naive emitter on every run of every program. Both together: the emitted text is correct.
- **Arithmetic runtime** (`Int64`, `Ieee754`, `FloatBits`, `FloatPack`, `FloatArith`). 64-bit integer helpers on
  pairs of words. Double-precision add, subtract, multiply, divide and compare against the exact real result rounded
  once.
- **Filesystems** (`FsLayout`, `FsTree`, `FsFile`, `FsStore`, and through a block cache `BufferCache`, `FsCached`).
  Reads and writes of files against plain byte strings, over a disk of bitmap, inodes and two levels of indirection.
- **v2 memory manager** (`Paging`, `PageEntry`, `PagingViews`, `PageRights`, `Vmm`, `VmmRuns`). Two-level page tables
  in physical memory, reference counts, copy-on-write. Every run behaves like private flat memories.
- **v2 kernel** (`Processes`, `OpenFiles`, `KernelSteps`, `KernelCalls`, `Kernel`). Scheduler, processes, descriptors,
  pipes: every run is that of the reference steps in `KernelSteps`, an invariant holds over every run, and what both
  promise.
- **Object format and linker** (`ObjectFormat`, `Resolver`, `Placement`, `LinkedImage`, `TextBlocks`, `TextMark`,
  `TextPrune`, `TextGc`, `GcProof`, `GcAliases`, `Linker`). Symbol resolution, relocation, and collection of
  unreachable text, which preserves the linked program.
- **v3 memory manager** (`VmAreas`, `FrameCounts`, `WriteBack`, `FrameMemory`, `PageFaults`, and the pipe ring
  `PipeRing`). Areas of a process as a map of pages, reference-counted frames with copy-on-write, and a page cache
  that writes back to files.

`Words`, `Ints`, `Bits` and `Bytes` hold machine arithmetic. `Folding` holds one predicate that keeps large invariants
folded while proofs do not need to look inside. What the source updates in place is a class with `modifies` clauses
here, and what it computes is functions. Errors the source throws or returns are results, not preconditions. Where a
process, a device or the rest of the system decides something (which addresses translate, what a disk read returns,
what called code does), it is a parameter, so the results hold for every choice. `dafny verify dfyconfig.toml` checks
the project.

## Model

| member | source | states |
|---|---|---|
| `CodegenLabels.ExpressionCorrect` | src/toolchain/chibicc/codegen.ts:806-927 | Compiler correctness for every expression of the modelled kinds, both fast paths included: from any machine that agrees with the store, with room for its temporaries, the generated lines run from first to last; R0 then holds the value, R2 to R4 and memory outside the scratch stretch hold the updated store, and the stack pointer, R5, R6 and the stack in use are as they were. |
| `CodegenProof.ExprRuns` | src/toolchain/chibicc/codegen.ts:806-927 | The same inside any larger program whose labels are unique, by induction on the expression, wherever its code stands and whatever label number it started from. |
| `CodegenProof.OperandsRun` | src/toolchain/chibicc/codegen.ts:1036-1119 | However the two operands are ordered (constant right, simple left, spilled), R0 and R1 end up giving the operator the result of left and right in source order. |
| `CodegenDepth.DepthIs` | src/toolchain/chibicc/codegen.ts:806-927 | The stack the correctness theorem asks for is what the code takes: the greatest number of pushes not yet popped anywhere in its lines, and none are left at the end. |
| `CodegenProof.LogicalRuns` | src/toolchain/chibicc/codegen.ts:1159-1176 | The short-circuit operators skip the second operand exactly when the first decides, and leave 0 or 1. |
| `CodegenProof.AluMeans` | src/vm/custom32/cpu.ts:694-753 | For every arithmetic operator, signed or unsigned, and every pair of words, the instruction chosen for it gives the 32-bit result of C, and faults exactly on division by zero. |
| `Operators.OperatorMeans` | src/vm/custom32/cpu.ts:694-753 | What each operator computes, said with single bits, remainders modulo 2^32 and equations between integers only: bit j of an and, an or, an exclusive or or a shift from the bits of the operands, quotient and remainder with their signs, comparisons of the signed numbers; no result exactly for division by zero. |
| `Bits.XorBit` | src/vm/custom32/cpu.ts:739-741 | Bit j of an exclusive or is set exactly when one of the two bits j is. |
| `Machine.FlagsCompare` | src/vm/custom32/cpu.ts:400-413 | After a comparison, the jump conditions read from the four flags are exactly equality and signed or unsigned order. |
| `Machine.AluFlagsMean` | src/vm/custom32/cpu.ts:382-409 | After every operation the flags say whether the result is zero and negative; after a sum or difference, whether the unsigned and the signed result went out of range; other operations leave those two alone. |
| `Generator.ExpressionDisciplined` | src/toolchain/chibicc/codegen.ts:806-927 | Everything the expression generator emits follows the rule under which deferring stores of `__csp` is sound. |
| `Generator.Generator.GenExpr` | src/toolchain/chibicc/codegen.ts:806-927 | The recursive generator, emitting line by line through the deferring emitter with its two flags and its label counter, appends exactly the lines of the compiler proved correct. |
| `Generator.Generator.GenAddr` | src/toolchain/chibicc/codegen.ts:536-591 | The same for the address of a place: global, local, dereference, member. |
| `Generator.Generator.GenBinary` | src/toolchain/chibicc/codegen.ts:1036-1119 | The same for binary operators with their operand orders. |
| `Generator.Generator.GenLogical` | src/toolchain/chibicc/codegen.ts:1159-1176 | The same for the short-circuit operators. |
| `Generator.Generator.GenConditional` | src/toolchain/chibicc/codegen.ts:1145-1157 | The same for the conditional operator. |
| `LazyStackProof.CallFollows` | src/toolchain/chibicc/codegen.ts:97-215 | Each call of the emitter: the lines it appends while deferring stores of `__csp` take related machines to related machines, for every line, every push, pop and adjustment, every combination of flags and every behaviour of called code. |
| `LazyRuns.LazyRefinesEager` | src/toolchain/chibicc/codegen.ts:81-215 | Whole programs with jumps: for every sequence of emitter calls in which no line gives R5 another value while a store is owed, every run of the eagerly emitted program is matched, call by call, by the lazily emitted one, which ends in the same state but for a `__csp` cell whose value is then in R5. |
| `LazyRuns.StaleImpliesHas` | src/toolchain/chibicc/codegen.ts:81-142 | The flags of the emitter satisfy "a store is owed only if R5 holds the value" throughout a sequence of calls exactly when no line names R5 while a store is owed. |
| `LazyRule.RuleExact` | src/toolchain/chibicc/codegen.ts:97-118 | The rule is exact: for every line, deferring the store across it is sound if and only if the line cannot give R5 another value while the store is owed. |
| `EmittedCode.EmittedCorrect` | src/toolchain/chibicc/codegen.ts:97-215 | End to end: the text actually appended for an expression, after any earlier text and from any state of the flags, run on the machine, computes the value, leaves registers, memory and stack as the expression does, and leaves `__csp` what it was, in R5 or in memory as the flags then say. |
| `Int64.Mul` | src/toolchain/chibicc/runtime64.ts:38-53 | The four half-word products with their carries give the 64-bit product of any two pairs. |
| `Int64.Add` | src/toolchain/chibicc/runtime64.ts:17-26 | Sum of pairs modulo 2^64. |
| `Int64.Sub` | src/toolchain/chibicc/runtime64.ts:28-36 | Difference of pairs modulo 2^64. |
| `Int64.Neg` | src/toolchain/chibicc/runtime64.ts:79-88 | Negation modulo 2^64. |
| `Int64.ShiftLeft` | src/toolchain/chibicc/runtime64.ts:90-99 | Shift left of a pair by any amount, taken modulo 64. |
| `Int64.ShiftRight` | src/toolchain/chibicc/runtime64.ts:101-110 | Logical shift right of a pair by any amount, taken modulo 64. |
| `Int64.ShiftRightSigned` | src/toolchain/chibicc/runtime64.ts:112-124 | Arithmetic shift right: the signed number divided by a power of two, rounded down. |
| `Int64.UnsignedCmp` | src/toolchain/chibicc/runtime64.ts:217-223 | -1, 0 or 1 exactly as the unsigned numbers compare. |
| `Int64.SignedCmp` | src/toolchain/chibicc/runtime64.ts:207-215 | -1, 0 or 1 exactly as the signed numbers compare. |
| `Int64.UDivMod` | src/toolchain/chibicc/runtime64.ts:127-175 | Shift-subtract division satisfies the division equation with a remainder below the divisor; a zero divisor gives an all-ones quotient and the dividend as remainder. |
| `Int64.SignedDiv` | src/toolchain/chibicc/runtime64.ts:177-190 | Quotient rounded toward zero for every nonzero divisor, the most negative dividend by -1 wrapping; by zero it is -1, or 1 for a negative dividend. |
| `Int64.SignedMod` | src/toolchain/chibicc/runtime64.ts:192-205 | Remainder with the sign of the dividend; by zero it is the dividend. |
| `FloatArith.Mul` | src/toolchain/chibicc/runtimeFloat.ts:348-391 | The encoding of the exact product rounded once, to nearest with ties to even (section 4.3.1 of IEEE 754-2019), with the right sign, through subnormals and overflow, for every pair of finite operands; NaN and infinity cases exactly. |
| `FloatArith.Div` | src/toolchain/chibicc/runtimeFloat.ts:393-436 | The exact quotient rounded once, likewise, with its sign; NaN, zero and infinity cases exactly. |
| `FloatArith.Add` | src/toolchain/chibicc/runtimeFloat.ts:293-331 | The exact sum rounded once, likewise; infinities; and the sign of an exact zero, which is the first operand's sign, or, of two zeros, negative when both are. |
| `FloatArith.ZeroSignIff` | src/toolchain/chibicc/runtimeFloat.ts:293-331 | The sign of an exact zero sum is the one section 6.3 of IEEE 754-2019 gives if and only if the first operand is zero or positive. |
| `FloatArith.OppositeOnes` | src/toolchain/chibicc/runtimeFloat.ts:293-331 | -1.0 + 1.0 gives the encoding of -0.0, where the standard has +0.0. |
| `FloatArith.Sub` | src/toolchain/chibicc/runtimeFloat.ts:337-339 | The exact difference rounded once, likewise; infinities; and the sign of an exact zero. |
| `FloatArith.Cmp` | src/toolchain/chibicc/runtimeFloat.ts:438-458 | -1, 0 or 1 exactly as the real values compare, zeros being equal; 1 when an operand is NaN. |
| `FloatArith.Product` | src/toolchain/chibicc/runtimeFloat.ts:341-370 | The 128-bit shift-and-add loop computes the exact product of two significands. |
| `FloatArith.Quotient` | src/toolchain/chibicc/runtimeFloat.ts:405-425 | The restoring loop computes quotient and remainder of the significands with 55 fraction bits. |
| `FloatPack.Pack` | src/toolchain/chibicc/runtimeFloat.ts:258-291 | Packing a mantissa that tells on which side of each halfway point the exact number lies yields its correct rounding, for every exponent: normal, subnormal, underflowing to zero or overflowing. |
| `FloatPack.JamKeepsSide` | src/toolchain/chibicc/runtimeFloat.ts:204-214 | Shifting right with the lost bits jammed into the last one never moves a number across a halfway point. |
| `Ieee754.Threshold` | src/toolchain/chibicc/runtimeFloat.ts:258-291 | The overflow rule of the rounding definition is the midpoint above the largest finite number. |
| `Ieee754.RoundsUnique` | src/toolchain/chibicc/runtimeFloat.ts:258-291 | The rounding definition names one encoding for each exact number, so the results above are determined. |
| `FsLayout.EncodeSuperblock` | src/storage/fs.ts:524-545 | A superblock encoded is decoded back, in 512 bytes. |
| `FsLayout.EncodeDinode` | src/storage/fs.ts:547-581 | An inode encoded at any offset is decoded back, and no byte outside its 80 changes. |
| `FsLayout.SetBitSpec` | src/storage/fs.ts:188-202 | Setting or clearing one bit of the bitmap changes the state of that block only, and no block outside the bitmap. |
| `FsTree.NoSharing` | src/storage/fs.ts:229-282 | No disk block is at two places of the tree of any file or of two files, and none of them is metadata. |
| `FsStore.Fs.Balloc` | src/storage/fs.ts:210-219 | Takes the lowest free block, marked and zeroed, or fails exactly when every block is in use. |
| `FsStore.Fs.Bmap` | src/storage/fs.ts:229-282 | The block behind a file block through direct, indirect and double-indirect pointers; allocating adds blocks only on the way to that one, moves none, changes no other field of the inode, and every file reads the same. |
| `FsStore.Fs.Readi` | src/storage/fs.ts:324-341 | Reads exactly the bytes of the file in range, holes as zeros. |
| `FsStore.Fs.Writei` | src/storage/fs.ts:345-361 | On success the file is its old bytes, zero-extended, with the data laid over them, the inode is the caller's with new pointers and a size that reaches the end, every other file is untouched, the tree is still a tree, and new blocks are only on the way to blocks written, no old one having moved. It fails only past the largest size, changing nothing, or on a full disk, and then the stored inodes are as they were, every other file shows the same bytes, and of the file in hand only the first bytes of the data have been written. |
| `FsFile.WrittenContent` | src/storage/fs.ts:345-361 | Blocks written one by one add up to the overlay of the data on the old contents, including the zeros between the old end and the offset. |
| `FsStore.Fs.Itrunc` | src/storage/fs.ts:285-318 | Frees exactly the blocks of the inode, at every level, and no other; the file is empty and every other file reads the same. |
| `FsFile.Truncated` | src/storage/fs.ts:285-318 | Once every position has been visited, what is free is exactly what was free and what the inode had. |
| `FsStore.Fs.Ialloc` | src/storage/fs.ts:147-175 | Takes the lowest free inode with fresh attributes, changing no file; fails exactly when none is free. |
| `FsStore.Fs.Ifree` | src/storage/fs.ts:178-184 | Truncates and marks free: type, links and mode are zero and nothing else of the inode has changed; every other file reads the same. |
| `FsStore.Fs.Format` | src/storage/fs.ts:90-125 | A formatted disk satisfies the whole invariant: only metadata in use, every inode but the root free. |
| `FsStore.Fs.Mount` | src/storage/fs.ts:80-86 | Accepts a disk exactly when magic, version and inode size are right. |
| `FsStore.Fs.Iupdate` | src/storage/fs.ts:139-144 | Stores that inode and changes no other; refuses inode numbers outside the table. |
| `BufferCache.Buffers.Bread` | src/v3/kernel/fs.c:34-87 | With the fast path for the last block and round-robin replacement, the slot holds the block and no block is in two slots; a block that was there leaves the cache as it was, any other takes the next slot in turn. |
| `BufferCache.Buffers.Bwrite` | src/v3/kernel/fs.c:89-91 | Writes the buffer to its block; the cache is clean again. |
| `FsCached.Fs.Mount` | src/v3/kernel/fs.c:93-118 | Accepts a disk exactly when magic, version and inode size are right, starting from an empty cache. |
| `FsCached.Fs.Balloc` | src/v3/kernel/fs.c:218-244 | Gives the first free block from the hint on, going around, marked and zeroed, and moves the hint behind it; fails exactly when the filesystem is read only or every block is in use. |
| `FsCached.Fs.Bmap` | src/v3/kernel/fs.c:282-307 | Through the cache, the block at that place of the tree, 0 for a hole or past the largest file. |
| `FsCached.Fs.BmapAlloc` | src/v3/kernel/fs.c:309-367 | Through the cache, with evictions between steps: afterwards the block is where Bmap finds it, no other mapping has changed, no block has moved, new ones are only on the way to it, and every file reads as before. |
| `FsCached.Fs.Readi` | src/v3/kernel/fs.c:369-395 | Reads exactly the bytes of the file in range and changes no file; only the access time of the inode, and only when something was read; a negative length, or one whose end wraps past the largest int, is returned as it is with nothing read. |
| `FsCached.Fs.Writei` | src/v3/kernel/fs.c:397-431 | In 32-bit arithmetic: writes as much as there was room for, and the file is the overlay of exactly that much if and only if offset plus length does not wrap; when it wraps the length is returned and no file has changed. The inode keeps all but pointers, size and two times; every other file and inode is untouched and no block has moved; a short count means a full disk; each error code has its exact condition, no file changes on any error, and the invariant holds after every outcome. |
| `FsCached.Fs.WritePastEnd` | src/v3/kernel/fs.c:397-431 | One byte written at offset 0x7fffffff: reported written, and in no file. |
| `PipeRing.Pipe.Write` | src/v3/kernel/pipe.c:25-46 | The ring buffer takes as many bytes as there is room for, after what it held, around its end. |
| `PipeRing.Pipe.Read` | src/v3/kernel/pipe.c:48-66 | It gives the oldest bytes, in order: what it held is what was read followed by what it holds. |
| `VmmRuns.Processes.Run` | src/v2/kernel/vmm.ts:31-175 | Refinement over whole runs: whatever processes fork, store, are written to, load, exec or exit, shared, copied and reused frames behave exactly as a map from each process to a flat memory of its own with a right for each address; a run stops early only with no frame free or at a misaligned program; and when no process is left every frame is free. |
| `VmmRuns.Processes.ForkProcess` | src/v2/kernel/kernel.ts:633-665 | The child gets what the parent has, and nobody else changes; fails only with no frame free. |
| `VmmRuns.Processes.Store` | src/v2/kernel/kernel.ts:320-327 | A user store, retried after a copy-on-write fault, changes that byte of that process only, and takes effect exactly where it may write. |
| `VmmRuns.Processes.CopyOut` | src/v2/kernel/vmm.ts:160-164 | The kernel writes exactly up to the first address the process may not write, and no other process sees it. |
| `VmmRuns.Processes.CopyIn` | src/v2/kernel/vmm.ts:140-146 | The kernel reads what the flat memory holds, and fails exactly when some address may not be read. |
| `VmmRuns.Processes.Load` | src/v2/kernel/kernel.ts:211-222 | The memory of a loaded program: an address is mapped exactly when some byte of some segment lies on its page, with that segment's rights, and shows the segment's data or else zero; the space it replaces is given up only then; fails only on a misaligned segment, which it always refuses, or with no frame free. |
| `VmmRuns.LoadedShows` | src/v2/kernel/vmm.ts:57-67 | Segments put into an empty memory one after the other come to just that, byte by byte. |
| `VmmRuns.ForkKeeps` | src/v2/kernel/vmm.ts:74-97 | A fork leaves what a process may do unchanged exactly when nothing of it is read only. |
| `VmmRuns.ForkOpens` | src/v2/kernel/vmm.ts:74-97 | A store to a read-only address is refused before a fork and takes effect after it. |
| `Vmm.Vmm.CowCloneAddressSpace` | src/v2/kernel/vmm.ts:74-97 | The child sees what the parent sees at every address, no space sees a change, the only new uses of frames are the child's, counts stay exact, and rights become those of a fork in both; fails only with no frame free. |
| `Vmm.Vmm.TryCow` | src/v2/kernel/vmm.ts:101-120 | Acts exactly on present pages marked for copying; afterwards the page is the space's own and writable, in a frame no one else uses if it was shared and in its own otherwise; no space sees a change, no right changes and counts stay exact; fails only with no frame free. |
| `Vmm.Vmm.MapPage` | src/v2/kernel/vmm.ts:38-47 | Maps a zeroed page with the rights of its flags, changing no other page of any space; the reference counts stay exact if and only if nothing was mapped there; fails only with no frame free. |
| `Vmm.Vmm.LoadSegment` | src/v2/kernel/vmm.ts:57-67 | The pages show the data and then zeros with the rights of the flags, as many as the larger of data and size takes; nobody else sees a change; a misaligned address is refused with nothing changed, and it fails otherwise only with no frame free. |
| `Vmm.Vmm.StoreByte` | src/v2/kernel/vmm.ts:166-175 | A byte written through an address space is seen there, at that address only, and by no other space; it is written exactly where that space may write, unless a copy is due and no frame is free. |
| `Vmm.Vmm.Copyout` | src/v2/kernel/vmm.ts:160-164 | Bytes go to one space up to the first address that may not be written, unless a copy is due and no frame is free. |
| `Vmm.Vmm.Copyin` | src/v2/kernel/vmm.ts:140-146 | Succeeds exactly when every address may be read, and gives what is there. |
| `Vmm.Vmm.FreeAddressSpace` | src/v2/kernel/vmm.ts:124-137 | What is left in use is exactly the uses of the other spaces, with exact counts and an exact free list. |
| `Vmm.Vmm.ForkAndExit` | src/v2/kernel/vmm.ts:74-137 | A fork undone by the child's exit gives back every frame and every count. |
| `Vmm.Miscounted` | src/v2/kernel/vmm.ts:38-47 | Overwriting an entry without dropping its frame leaves the counts wrong, whatever they were. |
| `Vmm.TranslateIs` | src/vm/custom32/mmu.ts:60-78 | Translation through two levels succeeds exactly when both entries are present and open to the user and, for a write, the page entry is writable; it gives frame and offset. |
| `Vmm.ReleasedUse` | src/v2/kernel/pmm.ts:51-59 | Dropping one use of a frame as release does keeps the counts exactly the numbers of uses and the free list exactly the unused frames, whether or not the use was the last. |
| `Kernel.Kernel.Run` | src/v2/kernel/kernel.ts:272-345 | Over every run of traps, typed input and loaded programs: the state is that of the reference steps, event by event; and the ready queue is exactly the ready processes, the process tree is a tree, no process waits beside a zombie child, reference counts and pipe ends are exact, and each pipe's bytes are accounted for. |
| `Kernel.Kernel.Dispatch` | src/v2/kernel/kernel.ts:306-428 | Every trap does what its reference step says, to processes, queue, descriptors, files, pipes, readers and keys alike, and keeps the invariant. |
| `Kernel.Promises` | src/v2/kernel/kernel.ts:272-345 | The invariant implies each of these promises. |
| `Kernel.DeliveredIff` | src/v2/kernel/kernel.ts:462-528 | What readers got, followed by what a pipe holds, is all that was written if and only if no read whose copy-out faulted took any bytes. |
| `Kernel.FaultLoses` | src/v2/kernel/kernel.ts:480-511 | A read of a nonempty pipe that faults loses bytes, for every pipe and length. |
| `Kernel.Kernel.SysRead` | src/v2/kernel/kernel.ts:462-499 | On a pipe: parks on an empty one that can still be written, otherwise takes what was asked for or all there is and returns their number or an error; likewise on the keyboard; exactly the state of the reference step. |
| `Kernel.Kernel.SysWrite` | src/v2/kernel/kernel.ts:433-457 | On a pipe with readers appends all the bytes, returns their number and serves those parked; anything else leaves the pipes alone; exactly the state of the reference step. |
| `Kernel.Kernel.ServeReader` | src/v2/kernel/kernel.ts:522-527 | The first parked reader is made ready with the count of the bytes taken for it, or an error when its address is bad, the bytes being taken all the same. |
| `Kernel.Kernel.ServicePipeReaders` | src/v2/kernel/kernel.ts:522-527 | Parked readers are served one after the other until there is no data, or all of them once no writer is left: processes, queue, pipe and reads are exactly those of serving the first reader again and again; only parked processes change. |
| `Kernel.ServedInOrder` | src/v2/kernel/kernel.ts:522-527 | Those served are the first of those parked, made ready in order; each read takes what was asked for or else all that is left, and faults exactly when its address is bad; no byte is added or left out; afterwards no reader can be served. |
| `Kernel.Kernel.SysPipe` | src/v2/kernel/kernel.ts:530-563 | Leaves exactly the state of the reference step, and the invariant. |
| `KernelCalls.PipeMeans` | src/v2/kernel/kernel.ts:530-563 | Fails exactly when two descriptors are not free or cannot be handed back, changing nothing; otherwise the two lowest free ones, and no others of any process, refer to the ends of a new empty pipe. |
| `Kernel.Kernel.SysDup` | src/v2/kernel/kernel.ts:566-574 | Leaves exactly the state of the reference step, and the invariant. |
| `KernelCalls.DupMeans` | src/v2/kernel/kernel.ts:566-574 | Fails exactly when the descriptor is closed or none is free, changing nothing; otherwise the lowest free one, and no other of any process, refers to the same file. |
| `Kernel.Kernel.SysOpen` | src/v2/kernel/kernel.ts:577-605 | Leaves exactly the state of the reference step, and the invariant. |
| `KernelCalls.OpenMeans` | src/v2/kernel/kernel.ts:577-605 | Fails exactly when the path is not found or no descriptor is free, changing nothing; otherwise the lowest free one, and no other, refers to a new open file. |
| `Kernel.Kernel.SysClose` | src/v2/kernel/kernel.ts:608-627 | Leaves exactly the state of the reference step, with the end of a pipe closed by its last descriptor and readers woken by its last writer, and the invariant. |
| `KernelCalls.CloseMeans` | src/v2/kernel/kernel.ts:608-614 | Fails exactly on a closed descriptor; otherwise it is closed, and every other descriptor of every process is as it was. |
| `Kernel.Kernel.Fork` | src/v2/kernel/kernel.ts:633-665 | Leaves exactly the state of the reference step, with one more reference for each descriptor the child shares, and the invariant. |
| `KernelCalls.ForkMeans` | src/v2/kernel/kernel.ts:633-665 | A child with its parent's descriptors and result 0, the parent with the child's number, both ready, child first; no other process changes. |
| `Kernel.Kernel.Exit` | src/v2/kernel/kernel.ts:760-790 | Closes every descriptor in order, becomes a zombie with its code, hands its children to process 1, and gives process 1 and then the parent a zombie child if they wait: exactly the state of the reference step, and the invariant. |
| `Kernel.Kernel.SysWait` | src/v2/kernel/kernel.ts:721-755 | Leaves exactly the state of the reference step, and the invariant. |
| `KernelCalls.WaitMeans` | src/v2/kernel/kernel.ts:721-755 | Fails without children; takes the first zombie child away, the others staying in order; or waits for one. |
| `Kernel.Kernel.Feed` | src/v2/kernel/kernel.ts:514-519 | Typed keys go to parked readers one after the other: processes, queue and keys are exactly those of serving the first reader again and again while there is something to give. |
| `Kernel.FedInOrder` | src/v2/kernel/kernel.ts:514-519 | Those served are the first of those waiting, made ready in order; keys go out from the front; readers are left only when there is nothing to give them. |
| `Kernel.Kernel.Schedule` | src/v2/kernel/kernel.ts:272-284 | The first ready process is given the processor. |
| `OpenFiles.WriterIff` | src/v2/kernel/kernel.ts:608-632 | A pipe counts a writer, or a reader, exactly when some descriptor of some process refers to that end. |
| `Processes.Exited` | src/v2/kernel/kernel.ts:760-790 | After an exit only the parent and the heir can be waiting beside a zombie child: waking those two suffices. |
| `ObjectFormat.EncodeObject` | src/formats/object.ts:104-157 | Every encodable object is encoded to bytes that parse back to it. |
| `ObjectFormat.ParseObject` | src/formats/object.ts:159-225 | Parsing gives the object the bytes mean, or the reason they are not well formed, for every byte string. |
| `ObjectFormat.StringTable.Intern` | src/formats/object.ts:83-91 | A name gets an offset where it is found; names already there keep theirs. |
| `Resolver.Resolve` | src/toolchain/object-linker.ts:74-123 | On success every undefined symbol has exactly one definer and each archive member was taken for a name wanting at the time; members are looked at archive by archive and in order, pass after pass while something is wanting, which fixes what is loaded, in which order, and how it fails; on failure the reason holds. |
| `Resolver.ResolutionUnique` | src/toolchain/object-linker.ts:88-123 | That order determines the objects loaded and their sequence, or the kind of failure and the names left undefined. |
| `Resolver.Resolver.Admit` | src/toolchain/object-linker.ts:91-99 | An object is refused exactly when one of its exports is there already or twice in it. |
| `Resolver.Puller.Pass` | src/toolchain/object-linker.ts:103-119 | A pass without progress means no member left supplies a needed name. |
| `Placement.ClosedResolves` | src/toolchain/object-linker.ts:185-196 | Once no name is wanting, no relocation of sound objects meets an undefined symbol. |
| `Placement.Place` | src/toolchain/object-linker.ts:127-148 | Sections follow each other in order on word boundaries with less than a word between, text from the origin, data from the next page boundary, bss after data, without overlap. |
| `Placement.Relocate` | src/toolchain/object-linker.ts:178-200 | Every relocation field holds the address of the one definition meant plus the addend, every other byte is its object's; it fails exactly when some relocation has no definition. |
| `LinkedImage.SymbolShows` | src/toolchain/object-linker.ts:151-200 | At the address a linked symbol has, the image holds the byte its object has there, outside relocation fields; a bss symbol lies past all data at its object's place. |
| `TextBlocks.TextBlocks` | src/toolchain/object-linker.ts:294-308 | The text is cut at its global symbols, one at its very end included; the blocks cover it, each offset once, exactly when a global symbol stands at offset 0, none at the end, and no two at one offset. |
| `TextMark.Mark` | src/toolchain/object-linker.ts:227-275 | Marks exactly the blocks that a chain of references from the entry or from data leads to. |
| `TextPrune.PruneObject` | src/toolchain/object-linker.ts:330-368 | Keeps exactly the bytes, symbols and relocations of the kept ranges, moved together and in order. |
| `TextGc.GcText` | src/toolchain/object-linker.ts:227-292 | Objects lose only text in unreached blocks, with the symbols and relocations there. |
| `GcProof.NoneDropped` | src/toolchain/object-linker.ts:330-368 | No relocation in data or in kept text is dropped. |
| `GcProof.ResolvesKept` | src/toolchain/object-linker.ts:227-292 | After collection, too, every relocation resolves and definitions are unique. |
| `GcProof.CollectionPreserves` | src/toolchain/object-linker.ts:227-368 | The image of the collected objects is the image of the originals under an address renaming: kept bytes are the same, and every relocation of data and kept text has a field holding the new address of the same definition plus the same addend. |
| `GcAliases.TargetSurvives` | src/toolchain/object-linker.ts:310-368 | The text definition a live relocation means survives collection if and only if its object stays whole or exactly one global text symbol is nearest below it. |
| `GcAliases.EntrySurvives` | src/toolchain/object-linker.ts:227-292 | The same for the entry; when it does not survive, the entry is defined no more. |
| `GcAliases.CleanlyCut` | src/toolchain/object-linker.ts:294-308 | Where global text symbols stand at distinct offsets, 0 among them, every offset of the text has its one nearest symbol, which is the condition under which a definition survives. |
| `GcAliases.AliasLosesEntry` | src/toolchain/object-linker.ts:294-308 | With two global symbols at one offset, collection for the first loses the entry: an object for which it does. |
| `Linker.LinkObjects` | src/toolchain/object-linker.ts:74-213 | The whole link, with or without collection. The image, said of its bytes and symbol table alone: every section at its place in words from the origin, the next page, and the end of data; zeros between; every symbol's address from its section's place; in every relocation field the address of the one definition meant plus the addend. A load fails exactly as resolution does; a relocation or the entry fails only for objects that are not as the format asks. |
| `Linker.LinkPreserves` | src/toolchain/object-linker.ts:74-213 | The image linked with collection is the image linked without it, under one renaming of addresses that takes entry to entry. |
| `VmAreas.Vm.Mmap` | src/v3/kernel/memory.c:703-780 | Granted exactly when the arguments are in order, there is a place (the one asked for, or one past the break, or the sum of break and length wraps), a slot, and for a file that it may be mapped so. Then it adds exactly the pages of the range to the map of pages, with file offsets following, and changes no other; when the sum wraps it adds none. Refusals change nothing. |
| `VmAreas.Vm.MmapHuge` | src/v3/kernel/memory.c:689-780 | A request for 0x7fffffff bytes is granted wherever there is a slot, and adds no page. |
| `VmAreas.Vm.Munmap` | src/v3/kernel/memory.c:782-863 | Removes exactly the pages of the range, splitting an area where needed; fails, changing nothing, exactly on a bad range or when a split finds no slot. |
| `VmAreas.Vm.Mprotect` | src/v3/kernel/memory.c:969-1025 | Changes the protection of exactly the pages of the range; succeeds exactly when all of them are in areas and there are slots for the cuts; fails changing nothing. |
| `VmAreas.Vm.ProtectAreas` | src/v3/kernel/memory.c:908-967 | The cutting of areas in place, slot by slot, keeps the map of pages but for the protection of the range. |
| `VmAreas.Vm.Brk` | src/v3/kernel/memory.c:661-687 | Moves the break when the pages it takes in are free; giving pages back unmaps them and none of an area. |
| `VmAreas.Vm.FindMapping` | src/v3/kernel/memory.c:689-701 | The first place past the break with room, or 0 when there is none; for a length that wraps, the place after the break. |
| `VmAreas.OneInfo` | src/v3/kernel/memory.c:410-422 | Areas that lie apart say one thing of each page. |
| `PageFaults.HandlePageFault` | src/v3/kernel/memory.c:1027-1133 | A fault is resolved exactly as what the areas show of its page, or else the break, permit. A page to be copied is then in a frame that nothing else points at, writable and no longer marked, with the same bytes; a shared page keeps its frame and its slot must be written back; an absent one is a zero page in a new frame, or its file's page in the cache. No other page of any process changes. |
| `PageFaults.AreaShown` | src/v3/kernel/memory.c:410-422 | The search for an area finds exactly what the areas show of the page, and which part of which file that is. |
| `PageFaults.FaultMeans` | src/v3/kernel/memory.c:1027-1133 | What protection and flags say: which accesses are granted, and the first flags of a page, private, shared, anonymous or in the break. |
| `FrameMemory.Memory.HandleFault` | src/v3/kernel/memory.c:1027-1133 | The same on frames, page tables and cache, with exact reference counts; of the cache at most one slot changes, and it is dropped only once written back; what is not resolved leaves the page as it was. |
| `FrameMemory.Memory.FlushFrame` | src/v3/kernel/memory.c:588-605 | Skipping the scan when the count is 1 skips no cached frame: the slot that has the frame is written back if it must be, and nothing else in any file changes. |
| `FrameMemory.Memory.AllocSlot` | src/v3/kernel/memory.c:607-626 | Gives the first unused slot, or evicts the first page only the cache points at, with its bytes in its file; fails exactly when there is neither, and drops no mapped frame and no other slot. |
| `FrameMemory.Memory.CacheGet` | src/v3/kernel/memory.c:628-659 | Succeeds exactly when the part is cached, or readable with a slot and a frame to be had; the slot then shows that part of the file, processes see no change, and the files have the bytes of a page that was dropped. |
| `WriteBack.NothingLost` | src/v3/kernel/memory.c:578-661 | Write-back: as long as every slot not marked agrees with its file, whatever faults, evictions, reads and exits do, it stays so, and every part of every file has the same bytes for whoever looks, in the cache or in the file. |
| `FrameMemory.Memory.CopySpace` | src/v3/kernel/memory.c:1135-1169 | The child maps the parent's frames page by page, writable pages to be copied in both; nothing else changes and counts are exact. |
| `FrameMemory.ForkSees` | src/v3/kernel/memory.c:1135-1169 | So after the fork both see what the parent saw; shared pages keep their flags, and a private page that could be written is to be copied in both. |
| `FrameMemory.Memory.FreeSpace` | src/v3/kernel/memory.c:1171-1202 | Every pointer of the space is gone and its counts with it; every other space and the cache stay; exactly the slots of pages the space had are written back, and the files have their bytes. |
| `FrameMemory.Memory.StoreThenExit` | src/v3/kernel/memory.c:1072-1085 | A store to a shared page of a file and then exit: the file has the byte if and only if the slot was marked before the store. |
| `FrameMemory.Memory.StoreLost` | src/v3/kernel/memory.c:578-604 | One process writes to a shared page that another has too, the other exits, the first stores once more and exits: the store is in the cache, not in the file, and nothing is left to be written back. |
| `FrameMemory.Memory.UserWrite` | src/v3/kernel/memory.c:1027-1133 | A store through a writable entry is seen by no other entry and no cache slot unless the page is shared. |
| `FrameMemory.Memory.ForkThenStore` | src/v3/kernel/memory.c:1027-1169 | Fork, fault, store: after a fork, parent or child stores to a page that was private; it sees the byte, and no other process and no file does; it fails only with no frame left. |
| `FrameMemory.Memory.ProtectPage` | src/v3/kernel/memory.c:969-1025 | The flags after a protection change: writable at once exactly when writing is allowed, the page is private, not to be copied, and its frame counted once. |
| `FrameMemory.Memory.AllocFrame` | src/v3/kernel/memory.c:185-200 | Gives a frame nothing points at, with count 1, from the free list or the pool. |
| `FrameMemory.Memory.FreeFrame` | src/v3/kernel/memory.c:206-213 | Counts down, and puts the frame on the free list exactly when the count reaches 0. |

## Findings

Properties one would expect that fail, each with the condition under which they hold:

- A pipe can lose bytes. `sysRead` and `servicePipeReaders` take bytes from the pipe before copying them out, and when
  the copy faults the reader gets an error and the bytes are gone. `Kernel.FaultLoses` shows it for every nonempty
  pipe, and `Kernel.DeliveredIff` gives the condition: readers get all that was written if and only if no faulting
  read took any bytes.
- A fork makes read-only pages writable. The clone marks every present page for copying, also those that were not
  writable, and the fault handler then makes them writable. `VmmRuns.ForkOpens` shows it for every read-only address,
  and `VmmRuns.ForkKeeps` gives the condition: rights survive a fork if and only if nothing is read only.
- Mapping a page over a mapped one loses its frame. `Vmm.Vmm.MapPage` states that the reference counts stay exact if
  and only if nothing was mapped there, and `Vmm.Miscounted` why.
- Collecting unreachable text loses aliased functions. With two global text symbols at one offset the block between
  them is empty, so a definition that is referred to can be dropped. `GcAliases.AliasLosesEntry` gives an object whose
  entry is lost. `GcAliases.TargetSurvives` and `GcAliases.EntrySurvives` give the condition: the definition survives
  if and only if its object stays whole or exactly one global text symbol is nearest to it from below.
- Deferring the stores of `__csp` relies on no line giving R5 another value while a store is owed. `LazyRule.RuleExact`
  states that this rule is exact, line by line. Everything the expression generator emits follows it
  (`Generator.ExpressionDisciplined`).
- A write can be reported done and be nowhere. `writei` adds offset and length in 32-bit `int`, and `lseek` accepts
  any offset up to the largest; when the sum wraps, the size check passes, the loop is not entered, and the length is
  returned. `FsCached.Fs.WritePastEnd` shows it for one byte at 0x7fffffff, and `FsCached.Fs.Writei` gives the
  condition: a write that reports success is in the file if and only if the sum does not wrap.
- `mmap` with a length so great that the break plus it wraps round 32 bits is granted and maps nothing.
  `VmAreas.Vm.MmapHuge` shows it for a length of 0x7fffffff. `VmAreas.Vm.Mmap` states when a request is granted, and
  that a mapping left to the kernel to place has its full length if and only if the sum does not wrap.
- A store to a shared mapping of a file can be lost. A slot is marked for write-back only by the fault that makes a
  page writable, and writing it back clears the mark but leaves the page writable in every process that has it.
  `FrameMemory.Memory.StoreLost` shows it for every page two processes share, and
  `FrameMemory.Memory.StoreThenExit` gives the condition: a store gets to the file if and only if the slot is marked
  when it happens.
- An exact zero sum of doubles can have the wrong sign: -1.0 + 1.0 is -0.0 (`FloatArith.OppositeOnes`), where section
  6.3 of IEEE 754-2019 has +0.0. `FloatArith.ZeroSignIff` gives the condition: the sign is right if and only if the
  first operand is zero or positive.

## Left out

- Statements, calls, 64-bit and floating expressions, bit-fields, structure copies and casts of the code generator:
  the model covers 32-bit integer expressions and the emitter under all of them.
- The assembler: emitted lines run as they stand, with labels looked up by name.
- Single-precision helpers and conversions between integers and floats. The single-precision ones truncate instead of
  rounding and encode subnormals as normal numbers, so the results for doubles do not carry over.
- Directories, paths, links, permissions and times of both filesystems, except that writing sets the times: a
  directory is a file to the layer that is modelled.
- `itrunc`, `ialloc` and `ifree` of `src/v3/kernel/fs.c`: their counterparts in `src/storage/fs.ts` are modelled.
- Archive files and executables as byte formats, local symbols in the linker's symbol table, and the merging of
  segments for a kernel image.
- Console output, disk files, path lookup and program loading in the v2 kernel: a trap says what they returned. Process
  memory is in the v2 memory manager, and the kernel's model takes from it only which copies fault.
- The v3 kernel outside memory, block cache, filesystem and pipe ring; networking; the terminal; the v1 system.
- Concurrency inside a kernel: none of the kernels is preempted, so a run is a sequence of whole traps.
- CodegenLabels.ExpressionCorrect: asks that the expression has a value, that the hardware stack has room for its
  temporaries, and that it does not reach the cell of `__csp`; the machine faults or overwrites itself otherwise.
- LazyRuns.LazyRefinesEager: lines that give R5 another value while a store is owed are excluded, because there it is
  false, and LazyRule.RuleExact says so of each of them.
- FsStore.Fs.Writei: after a full disk the blocks already allocated belong to the inode in hand, which the source has
  not stored; nothing is promised of them once that copy is dropped.
- FsStore.Fs.Format: asks that the disk has room for its metadata, which the source does not check, and leaves the root
  without its "." and ".." entries, directories being left out.
- FsCached.Fs.Readi: asks for a valid inode number, as all of its callers do. None of them makes the sum of offset and
  length wrap; what happens then is stated all the same.
- FsCached.Fs.Writei: asks for a valid inode number, as all of its callers do.
- BufferCache.Buffers.Bread: asks for a block of the disk, as all of its callers do.
- Vmm.Vmm.LoadSegment: asks that the pages are not mapped yet; Vmm.Vmm.MapPage says what happens when one is. When
  frames run out the source throws in the middle, and nothing is promised of the half-built space.
- Vmm.Vmm.CowCloneAddressSpace: when frames run out the source throws in the middle, and nothing is promised.
- VmmRuns.Processes.Run: program segments have no page in common, and a run ends when frames run out. Exec is a load in
  place of the old space followed by copies to the new one, where the source copies before it gives up the old space;
  no process can tell.
- Kernel.Kernel.SysPipe: when the descriptors cannot be handed back the source closes both but keeps the pipe object,
  which nothing can reach; the model has no such pipe.
- Kernel.Kernel.SysWait: the exit code goes to the parent's memory, which is outside this part of the model.
- Linker.LinkObjects: with collection it asks that global text symbols lie within the text of their object or at its
  end, and that relocations name symbols the object has.
- Placement.Place: addresses are unbounded. The source aligns with 32-bit operators, whose results are negative from
  2^31 on, so the model follows it only for programs that end below that.
- ObjectFormat.EncodeObject: asks that sizes and values fit their fields and names hold no zero byte. Names are byte
  strings; of the source's strings, one that starts with U+FEFF or holds a lone surrogate does not survive its trip
  through UTF-8.
- FrameMemory.Memory.HandleFault: the case in which a page table must be made and no frame is left for it is excluded;
  the kernel stops there.
- PageFaults.HandlePageFault: the same case is excluded; which object of a file system a file is, is given.
- FrameMemory.Memory.CopySpace: asks for frames for the child's page tables; the kernel stops otherwise.
- FrameMemory.Memory.FlushFrame: a write-back that fails is not modelled; the source ignores its result.
- WriteBack.NothingLost: reads and writes through descriptors, which go past the page cache and update it, are not among
  the operations; neither is a store, of which FrameMemory.Memory.StoreThenExit says when it keeps cache and file in
  step.
- VmAreas.Vm.Mmap: taking the reference to the file is a parameter that says whether it succeeded.
