# Verified core of echOS

A Dafny model of the parts of echOS whose state is explicit and whose promises span several
functions, with machine-checked proofs about every input, every run or every interleaving.
`dafny verify dfyconfig.toml` checks the whole project.

The model has these parts.

- **eBPF.** `BpfIsa`, `BpfVm` and `BpfMachine` model the instruction set and the interpreter, first
  as a step function on machine values and then as an object that works in place. `BpfVerifier`
  models the static checker; `BpfSafety` and `BpfTermination` prove exactly which accepted programs
  are safe and which only move forward.
- **The x86-64 compiler.** `Jit` emits the bytes, `Linker` lays them out and patches the jumps, and
  `X86` is a decoder and processor for the forms that are emitted. `JitDecode`, `JitSim`, `JitAlu`,
  `JitBranch` and `JitProof` prove that decoding and running the bytes does what the interpreter
  does; `JitForms`, `JitDivision`, `JitBranchForms` and `JitLimits` show exactly where the compiler
  and the interpreter part ways.
- **Lock-free stack and ticket lock.** `LockFreeStack`, `TicketLock` and `TicketLimits` are state
  machines in which every atomic access is a step and any number of threads interleave.
- **F2FS slot image.** `F2fsSegments` accounts for blocks, `F2fsNode` encodes inodes and
  directories, `F2fsTree` holds the operations, `F2fsProof` and `F2fsRuns` prove what they keep and
  `F2fsSuccess` exactly when they succeed,
  `F2fsTables` and `F2fsReadBack` treat the final tables, `F2fsReader` and `F2fsPaths` read the
  image back by node and by path, and `F2fsBuilder` is the object that fills the buffer in place.
- **FAT boot partition.** `FatGeometry`, `FatChains`, `FatImage`, `FatReadBack` and `FatBuilder`
  do the same for the FAT16 and FAT32 builders, which share one model with a variant parameter.
- **Disk layout.** `DiskLayout` models the partition list and the growth of the seed partition.
- **A/B updates.** `SlotUpdate` models binary deltas and the two-slot manager.
- **Fences, hotplug, mounts.** `GpuFences`, `Hotplug` and `Mounts` are the kernel state machines.

Mutable objects of the source are classes whose methods are proved against functions on values;
the theorems are then about those functions and hold of the objects. Machine words are ranges of
the integers, and every wrap-around, saturation and truncating cast is written out.

Where code and documentation disagree the model follows the code. Promises that the code does not
keep have a lemma at a failing input and a lemma that says exactly when they hold: the checker
accepts backward JA (`BpfTermination.BackwardJaIsAccepted`), does not look for division by a constant
zero (`BpfSafety.DivisionByZeroIsAccepted`) and does not test the second slot of an LDDW
(`BpfSafety.LddwRuleIsNeeded`, `BpfTermination.HiddenLoopSpins`); the compiler leaves the registers as the caller had them
(`JitLimits.EntryRegistersMatter`), emits nothing for signed less-than branches
(`JitLimits.DroppedBranchChangesTheResult`) and cannot name all registers in all forms
(`JitForms.PlainFormsExactly`, `JitDivision.DivisionsExactly`, `JitBranchForms.BranchesExactly`); the queue of the spin lock lets two threads in
(`TicketLimits.QueueBreaksExclusion`); paths with a part . or .. lead elsewhere on disk
(`F2fsPaths.DotPathIsLost`), and long names are overwritten (`F2fsSuccess.LongNameIsLost`);
FAT directories hold no more files than one cluster has slots (`FatReadBack.FifteenthFileIsLost`);
deltas can fail from 2^32 bytes on (`SlotUpdate.OneByteTooLong`); the hotplug polling loops wait
for a flag that nothing sets (`Hotplug.NoCallSucceeds`); and paths resolve by string prefix, not
by component (`Mounts.NotByComponent`).

What the source takes from outside is a parameter: helper functions of the interpreter, the table
of helper addresses, hash and checksum functions, clock ticks, the answers of hotplug callbacks
and of the platform, reference counts, and the numbers of mount peer groups.

## Model

| member | source | states |
|---|---|---|
| `BpfMachine.Machine.Execute` | src/ebpf.rs:353-387 | the interpreter object, run in place on its registers and stack, returns the result of the run function and is left with exactly the registers, stack, program counter and step count in which the run ends, also when it ends in an error or a panic, for every program, context and helper table |
| `BpfMachine.Machine.DoStep` | src/ebpf.rs:367-381 | one pass of the loop changes the object as the step function changes the machine value; a failing pass reports the same error, counts the step and changes nothing else, except that a jump out of the program has moved the program counter |
| `BpfMachine.Machine.DoAlu` | src/ebpf.rs:393-504 | an arithmetic instruction writes one register with the value the instruction set gives, or fails with the right error and leaves the state alone |
| `BpfMachine.Machine.DoBranch` | src/ebpf.rs:536-612 | a conditional branch takes the target or the next slot according to the signed or unsigned comparison, for both widths |
| `BpfMachine.Machine.DoJmp` | src/ebpf.rs:510-574 | EXIT stops the machine, CALL stores the helper's answer in R0 or reports an unknown helper, JA and branches move the program counter |
| `BpfMachine.Machine.DoLdx` | src/ebpf.rs:618-642 | a load puts the little-endian value of the accessed stack range in the register, or reports the range that is out of bounds |
| `BpfMachine.Machine.WriteStack` | src/ebpf.rs:770-795 | a store of any width overwrites exactly the bytes below the address, in little-endian order, or fails and changes nothing |
| `BpfMachine.Machine.DoStore` | src/ebpf.rs:648-704 | immediate and register stores go to base plus offset with the width of the instruction |
| `BpfMachine.Machine.DoLd` | src/ebpf.rs:710-731 | the two-slot load joins both immediates and skips the second slot, or reports that it is missing |
| `BpfVm.FramePointerIsConstant` | src/ebpf.rs:353-387 | R10 is 512 in every state of every run, for every program whatsoever |
| `BpfVm.StoreThenLoad` | src/ebpf.rs:737-795 | a value stored with width s at an address is read back modulo 256^s after any number of later stores to disjoint ranges |
| `BpfVm.LoadUnaffected` | src/ebpf.rs:737-795 | a load does not notice any sequence of stores to disjoint ranges |
| `BpfVm.StackIndex` | src/ebpf.rs:737-746 | an access that is let through lies inside the 512-byte stack |
| `BpfVerifier.Verify` | src/ebpf.rs:819-914 | accepts exactly the programs without a complaint, and otherwise reports the first failing test: of the size, of the last slot, or of the first bad slot |
| `BpfSafety.SafeIffSafeSlots` | src/ebpf.rs:841-914 | among accepted programs, those in which no step from any state indexes a register out of range or leaves the program are exactly those without a register-writing LDDW right before the last slot and in whose unscanned slots every branch names existing registers and leads inside unless it can never be taken |
| `BpfSafety.NoPanicIff` | src/ebpf.rs:841-914 | among accepted programs, those in which no step from any state indexes a register out of range are exactly those whose unscanned branches name existing registers |
| `BpfSafety.NeverTakenIff` | src/ebpf.rs:536-612 | a conditional branch is taken from no register contents exactly when it compares a register with itself or with the end of its range, or has no condition |
| `BpfSafety.AcceptedProgramsAreSafe` | src/ebpf.rs:353-387 | in every run of such a program, for any context, stack and helper answers, the program counter stays inside and the next step neither indexes a register out of range nor reports an unreachable instruction |
| `BpfSafety.RunIsSafe` | src/ebpf.rs:819-914 | such a program never panics and never ends in an unreachable-instruction error |
| `BpfSafety.RuleIsSafe` | src/ebpf.rs:891-900 | an accepted program whose LDDW all have a second slot with opcode 0, as a comment of the checker asks, is such a program |
| `BpfSafety.LddwRuleIsNeeded` | src/ebpf.rs:891-900 | the checker does not test that rule: an accepted program that jumps into such a slot reaches register index 15 |
| `BpfTermination.ForwardIffForwardSlots` | src/ebpf.rs:841-914 | among accepted programs, those in which every step from every running state stops, fails or moves the program counter forward are exactly those in which no slot, scanned or not, has a jump back into the program that can be made |
| `BpfTermination.ForwardProgramsTerminate` | src/ebpf.rs:353-387 | such a program ends within one step per slot and never meets the step limit, from every state that has not taken more steps than it has passed slots |
| `BpfTermination.ForwardUnderRule` | src/ebpf.rs:865-900 | if the second slots of all LDDW have opcode 0, those are the accepted programs without a backward JA |
| `BpfTermination.HiddenLoopSpins` | src/ebpf.rs:891-900 | without that rule they are not: an accepted program without a scanned backward JA jumps into the second slot of an LDDW, which jumps to itself, and runs into the step limit |
| `BpfTermination.BackwardJaIsAccepted` | src/ebpf.rs:809-818 | the documentation says that backward branches are refused, but an unconditional one is accepted and runs into the step limit |
| `BpfSafety.DivisionFailsIff` | src/ebpf.rs:393-504 | a step fails with a division by zero exactly when it divides into a writable register and the divisor, in the width of the operation, is zero |
| `BpfSafety.ConstantDivisorIff` | src/ebpf.rs:809-818 | a slot with an immediate operand fails so exactly when it divides by the constant zero, whatever the state: the test that the documentation lists would be exact |
| `BpfSafety.OnlyRegistersDivideByZero` | src/ebpf.rs:353-387 | a run of a program without such a slot that ends in a division by zero has reached a division by a register that holds zero |
| `BpfSafety.DivisionByZeroIsAccepted` | src/ebpf.rs:809-818 | the documentation lists a check for division by a constant zero, but such a program is accepted and fails when it runs |
| `Linker.Link` | src/ebpf_jit.rs:299-319 | appending the pieces and applying the fixups succeeds exactly when every target is a known slot, and gives the linked code |
| `Linker.Buffer.Append` | src/ebpf_jit.rs:306-316 | a piece is appended, its offset recorded, and its jump, if it has one, queued for patching |
| `Linker.Buffer.ApplyFixups` | src/ebpf_jit.rs:993-1004 | every queued field is overwritten by its displacement, in order, unless a target is unknown |
| `Linker.PatchingLinks` | src/ebpf_jit.rs:993-1004 | patching the raw code field by field is the same as having emitted every piece with its displacement in place |
| `Linker.FieldsReachTheirTargets` | src/ebpf_jit.rs:993-1004 | each 32-bit field, read as a signed little-endian number and added to the address behind it, is the offset of its target slot |
| `Linker.FieldsAreDisjoint` | src/ebpf_jit.rs:635-712 | the fields of different jumps do not overlap |
| `Linker.OtherBytesUnchanged` | src/ebpf_jit.rs:993-1004 | a byte outside all fields is the byte that was emitted |
| `Linker.Rel32IsExact` | src/ebpf_jit.rs:993-1004 | the casts to 32 bits lose nothing for code of the sizes that occur |
| `JitLink.CompileBytes` | src/ebpf_jit.rs:1119-1150 | succeeds exactly when the program is accepted, all jumps resolve and the code fits the size limit, and returns the linked code; otherwise with the checker's error or the error of the step that fails |
| `JitAlu.AluSimulates` | src/ebpf_jit.rs:476-620 | the bytes of an arithmetic instruction of the fragment, decoded and run on the processor, give the destination the interpreter's value, keep every other register, and restore the stack |
| `JitBranch.RunBranch` | src/ebpf_jit.rs:644-712 | the bytes of a compare and conditional jump go to the target exactly when the interpreter's condition holds, signed or unsigned, 64 or 32 bits wide |
| `JitProof.RunPrologue` | src/ebpf_jit.rs:345-388 | the prologue saves the callee-saved registers below the return address and sets the frame up |
| `JitProof.RunEpilogue` | src/ebpf_jit.rs:390-413 | the epilogue restores every saved register and returns to the caller with the stack as it was |
| `JitProof.SimulateStep` | src/ebpf_jit.rs:419-474 | one interpreter step of the fragment is matched by a run of the emitted code between the offsets of the two slots |
| `JitProof.CompiledCodeIsCorrect` | src/ebpf_jit.rs:1119-1150 | for every accepted program of the fragment and every machine state at the call: if the interpreter, started from the registers found there, returns a value, the compiled bytes, decoded and run, return that value in rax and no other, with callee-saved registers and stack as the caller left them |
| `JitProof.CompiledResultIff` | src/ebpf_jit.rs:253-256 | when the interpreter returns a value both for a context and from the registers found at the call, the compiled code returns the former exactly when the two are equal |
| `JitProof.MatchingEntryIsCorrect` | src/ebpf_jit.rs:253-256 | in particular it does when R0 to R9 are found as the interpreter sets them |
| `JitForms.PlainFormsExactly` | src/ebpf_jit.rs:476-620 | all arithmetic but division, in both widths, with immediates and registers, compiles to code of the same meaning exactly when the encoding can name its registers and a shift by a register does not have its result in rcx, or when the operation changes nothing |
| `JitLimits.EntryRegistersMatter` | src/ebpf_jit.rs:345-388 | the prologue does not set the registers that the interpreter clears: a call gives the interpreter's results for all programs of the fragment exactly when it finds R0 to R9 as the interpreter sets them |
| `JitDivision.DivisionsExactly` | src/ebpf_jit.rs:560-620 | division and remainder, in both widths, compile to code of the same meaning exactly when the encoding can name both registers and neither is rax or rdx, when R5 is divided by itself, when an immediate divides R6, or when the immediate is zero and the interpreter always fails |
| `JitBranchForms.BranchesExactly` | src/ebpf_jit.rs:644-712 | a conditional branch for which code is emitted, JSET included, compiles to code that goes where the interpreter goes exactly when the deciding comparison names the registers meant, for JSET in either order, or the outcome is always the same |
| `JitLimits.DroppedBranchIsHarmlessIff` | src/ebpf_jit.rs:666-714 | no code is emitted for a signed less-than branch, which is harmless exactly when it leads to the next slot or is never taken |
| `JitLimits.DroppedBranchChangesTheResult` | src/ebpf_jit.rs:666-714 | an accepted program with such a branch returns 0 in the interpreter and 7 when compiled |
| `LockFreeStack.EveryRunLinearizes` | src/atomic_ops.rs:433-479 | for any number of threads and any interleaving of the loads, stores and exchanges, the calls and returns that clients see are linearizable to a sequential stack; an empty pop takes effect at its load of a null head |
| `LockFreeStack.ListIsTheStack` | src/atomic_ops.rs:417-431 | after every run the list from head consists of distinct nodes and holds exactly the sequential stack |
| `LockFreeStack.StepIsSequential` | src/atomic_ops.rs:441-473 | a successful exchange is exactly one push or one pop of the sequential stack, and every other step leaves the stack alone |
| `LockFreeStack.PushedIsPoppedPlusRemaining` | src/atomic_ops.rs:433-479 | over every run the values pushed are those popped together with those still in the list, as multisets |
| `LockFreeStack.NothingIsPoppedTwice` | src/atomic_ops.rs:456-479 | no two exchanges of a run take the same node off the list |
| `LockFreeStack.NextStepIsEnabled` | src/atomic_ops.rs:441-473 | no thread ever follows a pointer to a node that was never allocated |
| `LockFreeStack.RetryMeansProgress` | src/atomic_ops.rs:445-476 | an exchange fails only if another one has succeeded since the failing thread last read head |
| `TicketLock.TicketPathIsFair` | src/atomic_ops.rs:541-618 | in every run in which nobody queues behind another thread and at most 2^32 tickets are outstanding, at most one guard is live and threads enter in ticket order, across wrap-around of the counters |
| `TicketLock.NextInLine` | src/atomic_ops.rs:541-561 | when the lock is free, the oldest ticket is the one on show, and only its holder gets in |
| `TicketLock.TurnIsUnique` | src/atomic_ops.rs:541-561 | a waiting thread that sees its ticket is the first one outstanding, and nobody is inside |
| `TicketLimits.OneTicketTooMany` | src/atomic_ops.rs:541-561 | the bound is exact: with 2^32 + 1 tickets outstanding, a run ends with two live guards |
| `TicketLimits.QueueBreaksExclusion` | src/atomic_ops.rs:563-618 | a run in which two threads give up spinning and queue ends with two live guards: one release lets in both the next of the queue and the spinning holder of the next ticket |
| `F2fsSegments.AllocateKeepsAccounts` | scripts/build_f2fs_slot_image.py:153-170 | allocation fails only when the main area is full, never with a double allocation, and keeps every count equal to the bits set, every bit equal to being handed out, and every summary entry equal to the owner |
| `F2fsSegments.AnySequenceIsAccounted` | scripts/build_f2fs_slot_image.py:153-170 | any sequence of allocations from a fresh area succeeds exactly when there are blocks enough, and then counts, bits and summaries are exact; the double-allocation error is never met |
| `F2fsSegments.SummaryReadsBack` | scripts/build_f2fs_slot_image.py:181-188 | a summary entry reads back its owner and offset, and no other entry of the block changes |
| `F2fsNode.InodeReadsBack` | scripts/build_f2fs_slot_image.py:209-225 | an inode block gives back its size and all its direct pointers |
| `F2fsNode.PointersFit` | scripts/build_f2fs_slot_image.py:221-222 | the pointers can be written exactly when there are at most 934 |
| `F2fsNode.DirectoryReadsBack` | scripts/build_f2fs_slot_image.py:190-207 | a directory block of names of at most eight bytes lists its entries in its slots, in order, and marks no other slot |
| `F2fsNode.NameReadsBackIff` | scripts/build_f2fs_slot_image.py:192-207 | whatever the lengths of the names, a name can be read back exactly when the last later name to write over each of its bytes, if any, writes the same byte |
| `F2fsSuccess.DirBytesIff` | scripts/build_f2fs_slot_image.py:190-207 | a directory block can be written exactly when every name fits the name area from its slot on |
| `F2fsSuccess.LongNameIsLost` | scripts/build_f2fs_slot_image.py:192-207 | the block of a directory with a long name before another file is written, and the long name cannot be read back from it |
| `F2fsNode.LongNameIsOverwritten` | scripts/build_f2fs_slot_image.py:192-207 | a name of more than eight bytes that is not the last is lost as soon as its ninth byte differs from the first of the next name |
| `F2fsTree.ParentPath` | scripts/build_f2fs_slot_image.py:257-263 | putting the leading parts of a path together and splitting the result again gives the same parts |
| `F2fsProof.FileStays` | scripts/build_f2fs_slot_image.py:175-179 | a file stays readable as long as only blocks of other nodes are written |
| `F2fsProof.ChunksStored` | scripts/build_f2fs_slot_image.py:271-278 | the chunks of a payload are stored in blocks of their own, each holding its part padded with zeros, and no block of another node changes |
| `F2fsProof.MakeDirStep` | scripts/build_f2fs_slot_image.py:227-238 | a new directory has its inode and its block, and everything else is as before |
| `F2fsProof.LinkSound` | scripts/build_f2fs_slot_image.py:238-241 | entering a node in a directory keeps every file and every directory readable |
| `F2fsRuns.EnsureDirSound` | scripts/build_f2fs_slot_image.py:243-255 | walking a path and making what is missing ends in a directory that the path leads to, and loses nothing |
| `F2fsRuns.CreateFileSound` | scripts/build_f2fs_slot_image.py:257-283 | creating a file keeps everything stored before, and its path leads to a new node that holds its payload |
| `F2fsRuns.NewFsSound` | scripts/build_f2fs_slot_image.py:96-146 | a fresh image has an empty root directory and exact accounts |
| `F2fsSuccess.CreateFileIff` | scripts/build_f2fs_slot_image.py:243-283 | on every image that the invariant describes, for names of any length: creating a file succeeds exactly when, from the deepest directory on its way, the next part is not taken, every name fits its directory, the contents take at most 934 blocks, and two blocks per new directory, one for the inode and those of the contents are free |
| `F2fsSuccess.DeepestExists` | scripts/build_f2fs_slot_image.py:243-255 | every path but the root has such a deepest directory |
| `F2fsSuccess.NewFsIff` | scripts/build_f2fs_slot_image.py:96-146 | a fresh image can be made exactly when its size is whole blocks and its main area has between 8 segments and as many as the summary area describes |
| `F2fsSuccess.FirstFileIff` | scripts/build_f2fs_slot_image.py:257-283 | the first file of a fresh image can be created under any path whose names fit and for which there are blocks enough |
| `F2fsReadBack.NatReadsBack` | scripts/build_f2fs_slot_image.py:318-333 | both copies of the node table in the finished image hold the entry of every node |
| `F2fsReadBack.SuperblockReadsBack` | scripts/build_f2fs_slot_image.py:285-316 | every superblock field survives, although the first checkpoint overwrites the tail of the superblock |
| `F2fsReadBack.MainUntouched` | scripts/build_f2fs_slot_image.py:359-366 | the final phase changes no block of the main area |
| `F2fsReader.CreatedFilesReadBack` | scripts/build_f2fs_slot_image.py:257-366 | after any successful sequence of file creations the build succeeds, every path leads to its node, and reading the node through either copy of the node table gives exactly the payload |
| `F2fsPaths.PathResolvesIff` | scripts/build_f2fs_slot_image.py:190-366 | after any run of creations under names of at most eight bytes, following a path that the builder knows through the directories of the finished bytes, with either copy of the node table, leads to the builder's node exactly when no part of it is . or ..; and for paths without such parts the disk knows no others |
| `F2fsPaths.CreatedPathsReadBack` | scripts/build_f2fs_slot_image.py:190-366 | if all names have at most eight bytes, following a created path without parts . and .. from the root directory in the finished bytes reads its payload |
| `F2fsPaths.DotPathIsLost` | scripts/build_f2fs_slot_image.py:243-255 | on every fresh image the builder accepts /./a with up to 250 blocks of contents and makes a second directory named . for it, and on disk the path does not lead to the file |
| `F2fsReader.AccountsReadBack` | scripts/build_f2fs_slot_image.py:335-357 | in the finished image, both copies of the segment table are exact and every summary names the owner of every block handed out |
| `F2fsBuilder.Builder.Create` | scripts/build_f2fs_slot_image.py:96-146 | the object is built as the value-level image is, or fails with the same error |
| `F2fsBuilder.Builder.AllocateBlock` | scripts/build_f2fs_slot_image.py:153-170 | allocates in place as the value-level function does |
| `F2fsBuilder.Builder.WriteBlock` | scripts/build_f2fs_slot_image.py:175-179 | overwrites one block of the buffer, or refuses data that is not one block long |
| `F2fsBuilder.EncodeDir` | scripts/build_f2fs_slot_image.py:190-207 | the loop over the entries produces the directory block, or the error of the first entry that does not fit |
| `F2fsBuilder.EncodeInode` | scripts/build_f2fs_slot_image.py:209-223 | the loop over the pointers produces the inode block, or an error when there are too many |
| `F2fsBuilder.Builder.EnsureDirectory` | scripts/build_f2fs_slot_image.py:243-255 | the loop over the components ends where the value-level walk ends |
| `F2fsBuilder.Builder.WriteChunks` | scripts/build_f2fs_slot_image.py:271-278 | the loop over the payload stores the chunks that the value-level function stores |
| `F2fsBuilder.Builder.AddFile` | scripts/build_f2fs_slot_image.py:257-283 | creates a file in place as the value-level function does, with the same errors |
| `F2fsBuilder.Builder.WriteNatTables` | scripts/build_f2fs_slot_image.py:318-333 | clears and fills both copies of the node table in place |
| `F2fsBuilder.Builder.WriteSitTables` | scripts/build_f2fs_slot_image.py:335-348 | clears and fills both copies of the segment table in place |
| `F2fsBuilder.Builder.Finish` | scripts/build_f2fs_slot_image.py:359-366 | the bytes returned are those of the value-level build |
| `FatGeometry.SizeTable` | scripts/build_vm_appliance.py:105-116 | the inner loop ends, after at most one enlargement of the table, because a larger table leaves fewer clusters to describe |
| `FatGeometry.TableHasRoom` | scripts/build_vm_appliance.py:105-119 | the table found has room for an entry per cluster and two more, and all areas together fill the partition |
| `FatGeometry.FindGeometry` | scripts/build_vm_appliance.py:104-119 | the outer loop ends with the first cluster size whose count is in range, or with an error |
| `FatGeometry.WideSearchIsDecidedAtOnce` | scripts/build_vm_appliance.py:279-294 | FAT32 is found with one sector per cluster or not at all: doubling the cluster size never helps |
| `FatChains.AllocatedFrom` | scripts/build_vm_appliance.py:158-174 | every node gets a chain of consecutive clusters ending in the end mark, and no earlier entry changes |
| `FatChains.AllocationFits` | scripts/build_vm_appliance.py:158-177 | allocation fails exactly when the nodes need more clusters than there are |
| `FatChains.ChainsAreDisjoint` | scripts/build_vm_appliance.py:158-174 | the chains of different nodes do not overlap |
| `FatChains.FollowChain` | scripts/build_vm_appliance.py:238-250 | following the table from a node's first cluster visits its clusters up to the end mark, or up to the first link that reads as one |
| `FatChains.ReachIff` | scripts/build_vm_appliance.py:424-430 | a chain is reached to its last cluster exactly when no link carries the number of an end mark |
| `FatChains.ChainHoldsFile` | scripts/build_vm_appliance.py:238-250 | writing a file chunk by chunk along its chain puts its bytes in one piece at its first cluster, as far as the chain reaches |
| `FatReadBack.NodesHold` | scripts/build_vm_appliance.py:411-430 | after all nodes are written, the clusters of each node hold what was written for it, although a long directory runs into the clusters of the files written later |
| `FatReadBack.SlotReadsBack` | scripts/build_vm_appliance.py:45-60 | a directory entry gives back name, attribute, first cluster and size |
| `FatReadBack.ImageReadsBack` | scripts/build_vm_appliance.py:87-443 | for both builders: starting from the root directory and through either copy of the table, file k of the finished image is read whole, with its name, exactly when its slot lies in the one cluster of its directory; the other files cannot be reached |
| `FatReadBack.ImageFindsByName` | scripts/build_vm_appliance.py:216-236 | a search by name ends at file k exactly when no slot before it carries the same 8.3 name |
| `FatReadBack.ImageHoldsFiles` | scripts/build_vm_appliance.py:411-430 | by first cluster and size, every file reads back exactly when its chain is unbroken, also the files that no directory slot lists |
| `FatReadBack.ImageIff` | scripts/build_vm_appliance.py:87-443 | an image is built exactly when a geometry is found, all nodes together need no more clusters than it has, and names, sizes and sector numbers can be packed |
| `FatReadBack.CrossingFileIsLost` | scripts/build_vm_appliance.py:424-430 | 33 files of 2^32 - 512 bytes on a FAT32 partition of 300 million sectors are accepted, and the last one crosses the numbers of the end marks and cannot be read |
| `FatReadBack.FifteenthFileIsLost` | scripts/build_vm_appliance.py:395-411 | 15 files of one cluster each on a FAT32 partition of 100,000 sectors are accepted, the 14th is found and the 15th is not |
| `FatReadBack.ListedIsUnbroken` | scripts/build_vm_appliance.py:105-294 | the chain of a file whose slot lies in the first directory cluster is never broken, for FAT16 and for FAT32 |
| `FatBuilder.AllocateNode` | scripts/build_vm_appliance.py:158-171 | writes one chain entry by entry in place, or fails exactly when it runs past the table |
| `FatBuilder.WriteFile` | scripts/build_vm_appliance.py:240-250 | the loop over the remaining bytes writes along the chain |
| `FatBuilder.BuildDirectory` | scripts/build_vm_appliance.py:216-236 | the loop over the children fills the directory cluster |
| `FatBuilder.PackTable` | scripts/build_vm_appliance.py:198-200 | the loop over the entries packs the table |
| `FatBuilder.BuildImage` | scripts/build_vm_appliance.py:266-443 | the whole builder returns the value-level image, or the error of the step that fails |
| `DiskLayout.CreateLayout` | scripts/build_vm_appliance.py:731-769 | places the partitions back to back from sector 2048, or refuses exactly when recovery would start behind its end |
| `DiskLayout.Cascade` | scripts/build_vm_appliance.py:897-903 | after the seed partition has grown, every partition is moved just behind its predecessor with its size kept |
| `DiskLayout.SizeDisk` | scripts/build_vm_appliance.py:892-908 | both phases together succeed exactly when the partitions fit in front of the backup partition table, and pack them |
| `DiskLayout.LayoutIsSound` | scripts/build_vm_appliance.py:731-908 | every accepted layout is ordered, disjoint and aligned to 2048 sectors, gives ESP and seed at least the bytes asked for, keeps all sizes, and ends before the backup table |
| `DiskLayout.MinimumDiskSuffices` | scripts/build_vm_appliance.py:873-892 | with the disk size that the builder picks, the layout is never refused and recovery gets at least 126 MiB |
| `SlotUpdate.BuildDelta` | src/ecosystem.rs:743-778 | the two loops find the longest common prefix and the longest common suffix behind it, and the patch replaces what is between |
| `SlotUpdate.ApplyDelta` | src/ecosystem.rs:780-799 | the loop over the chunks gives the patched image, or the error of the check that fails |
| `SlotUpdate.DeltaRoundTripIff` | src/ecosystem.rs:743-799 | applying the delta between two images to the first gives the second exactly when the removed length fits 32 bits and cutting the prefix length to 32 bits is harmless: the inserted bytes and the part of the prefix cut off can change places |
| `SlotUpdate.ShortRoundTrip` | src/ecosystem.rs:743-799 | the round trip holds for all images when the first is shorter than 2^32 bytes |
| `SlotUpdate.OneByteTooLong` | src/ecosystem.rs:772-775 | appending a byte to 2^32 zero bytes: the offset is cut to 0, and the patched image is the new one exactly when the byte is zero, whatever the hash |
| `SlotUpdate.ReplacedImageStays` | src/ecosystem.rs:705-822 | in every run, the image that a successful commit replaces stays in the inactive slot, and the slots keep their roles, until that slot is set or another commit succeeds, however many attempts fail in between |
| `SlotUpdate.SlotsTakeTurns` | src/ecosystem.rs:705-822 | over every run of stage, set and commit, the number of successful commits alone decides the active slot and both generations, also when they saturate |
| `SlotUpdate.GenerationsDiffer` | src/ecosystem.rs:813-815 | until saturation the generation of B leads by one exactly while B is active |
| `SlotUpdate.UpdateThenRevert` | src/ecosystem.rs:735-822 | installing a new image and then the old one again restores active slot and image |
| `SlotUpdate.UpdateManager.CommitStagedPatch` | src/ecosystem.rs:801-822 | commits in place as the value-level function does, and reports slot, generation and image size |
| `GpuFences.FencesAreMonotone` | src/gpu3d.rs:1445-1529 | over every run of fewer than 2^64 - 1 calls, each fence's log holds the last 64 values it has taken, strictly rising to the current one, and a signaled fence has reached its target |
| `GpuFences.ValuesOnlyGrow` | src/gpu3d.rs:1480-1491 | no call takes a fence away or lowers its value |
| `GpuFences.TargetIsReached` | src/gpu3d.rs:1514-1529 | after a target is set, whatever is signaled, the fence is signaled exactly when the largest value seen reaches the target |
| `GpuFences.WhoSignals` | src/gpu3d.rs:1445-1508 | setting the state to signaled always signals; registering a known name as signaled does so exactly when the target is at most one step away |
| `GpuFences.GpuDevice.RegisterNamedFence` | src/gpu3d.rs:1445-1478 | registers or updates a named fence in place, and returns the handle kept under the name |
| `GpuFences.GpuDevice.SetFenceState` | src/gpu3d.rs:1493-1508 | sets or resets a fence in place, or reports an invalid handle |
| `GpuFences.GpuDevice.SignalFenceValue` | src/gpu3d.rs:1514-1520 | takes the value if it is larger, dropping the oldest log entry when the log is full |
| `GpuFences.GpuDevice.SetFenceTarget` | src/gpu3d.rs:1522-1529 | sets the target, never below the current value |
| `Hotplug.FreeGateMeansBalanced` | src/hotplug.rs:323-477 | over every interleaving, for all answers of callbacks and for platforms that may answer either way, whenever the gate is free no CPU is marked as changing and the online counter equals the number of CPUs online and the difference of the success counters, modulo their 32-bit wrap-around |
| `Hotplug.GateExcludes` | src/hotplug.rs:797-808 | at most one caller is past the gate |
| `Hotplug.CallsAreAllOrNothing` | src/hotplug.rs:323-477 | a failed call leaves states, flags and counters as it found them; a successful one, on a platform that answers so, changes exactly one CPU and moves each counter by one |
| `Hotplug.BootCpuStaysOnline` | src/hotplug.rs:397-403 | CPU 0, once online, stays online, for platforms that may answer either way |
| `Hotplug.PolledFlagIsOpposite` | src/hotplug.rs:495-546 | whenever a caller polls a CPU's online flag, the flag still has the value that the call is meant to change |
| `Hotplug.NoCallSucceeds` | src/hotplug.rs:479-549 | restricted to the answers that the polling loops can give, over every run no call succeeds: the loops wait for the flag that only the call itself stores, after they end, so states stay offline and the counters zero |
| `Mounts.FindBest` | src/mount_namespace.rs:306-341 | whatever the order of iteration, the search returns the longest non-empty target that is a string prefix of the path, as trying prefixes from the longest down does |
| `Mounts.ResolveByComponentIff` | src/mount_namespace.rs:328-341 | the mount found is the closest one by whole path components exactly when every mounted string prefix of the path is at most as long as some mount that covers the path by whole components |
| `Mounts.NotByComponent` | src/mount_namespace.rs:328-341 | with /mnt mounted, /mntx resolves to it, although /mnt is not above it |
| `Mounts.RunsAreNumbered` | src/mount_namespace.rs:155-243 | over every run of fewer than 2^32 - 1 calls, forks included, mount numbers are unique in each namespace and every parent's number is smaller |
| `Mounts.ParentChainsDoNotCycle` | src/mount_namespace.rs:184-218 | no chain of parents comes back to where it was |
| `Mounts.ForksAreSeparate` | src/mount_namespace.rs:169-182 | however a run goes on after a fork, and whatever is done to the parent, the fork resolves every path as the parent did at the fork until something is done to the fork itself |
| `Mounts.MountNamespace.AddMount` | src/mount_namespace.rs:184-243 | adds the entry with its parent, propagation and peer group in place, and returns its number |
| `Mounts.MountNamespace.RemoveMount` | src/mount_namespace.rs:270-283 | removes a target unless it is the root or not mounted |
| `Mounts.MountNamespace.ResolveMount` | src/mount_namespace.rs:328-341 | returns the entry of the longest prefix |

## Left out

- JitProof.CompiledCodeIsCorrect: covers the 64-bit and 32-bit arithmetic, shifts, division, comparisons, JSET, LDDW with a zero high half, JA and EXIT for which the emitted code agrees with the interpreter; helper calls, loads, stores, byte swaps, uses of R10, JSLT and JSLE are outside it, because their code differs from the interpreter or reaches native memory.
- Processor memory in `X86` is word-granular and holds only what is pushed and popped; flags that no emitted instruction reads are not modelled.
- The Windows calling convention, executable memory and `JitProgram::execute`: foreign calls.
- The field accessors of an instruction are written with quotients and remainders instead of masks.
- The atomic-add branch of `exec_stx` (src/ebpf.rs:686): no opcode meets both of its conditions, so it is never taken.
- LockFreeStack.EveryRunLinearizes: assumes that node addresses are not reused and that a popped node stays readable; reclamation and weak memory orders are not modelled.
- TicketLock.TicketPathIsFair: covers runs in which no thread queues behind another; beyond them exclusion can fail (`TicketLimits.QueueBreaksExclusion`), and whether it does depends on which tickets the spinning threads hold during the later hand-offs, not on one step.
- F2fsPaths.CreatedPathsReadBack: asks for names of at most eight bytes, because directory slots are numbered by entry and longer names are overwritten by the next one (`F2fsNode.NameReadsBackIff`), and for paths without parts . and .. (`F2fsPaths.PathResolvesIff`); contents reached by node number need neither condition.
- F2fsBuilder.Builder.WriteNatTables: visits the nodes by number, which is the order in which the source's dictionary received them.
- Paths are sequences of UTF-8 bytes; text that cannot be encoded is not modelled.
- 8.3 names are given in padded form; the conversion from host names, the seed partition's own FAT builder, the GPT headers and the boot control block are left out.
- CRC32, FNV-1a and other hashes are not computed; they are parameters.
- Hotplug.FreeGateMeansBalanced: takes the outcome of starting and stopping a processor, of the polling loops and of task migration as an answer of the platform; what the polling loops of the source answer is the subject of `Hotplug.NoCallSucceeds`.
- Mount event propagation and the locks around the global namespace table: logging and locking only.
- GPU objects other than fences count only as takers of handles.
- `src/main.rs`, `src/cfs.rs`, `src/btrfs.rs`, `src/elf.rs`, device glue and the shell: no part of this model.
