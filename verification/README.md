# Verification of the Y86-OS simulator

A model of the simulator's machine and operating system in Dafny, with proofs. `dafny verify dfyconfig.toml` checks all
of it. The original is C++ and Python; the model follows what that code does, including where it falls short of what it
is meant to do.

| part | files |
|---|---|
| machine words | `Words.dfy` |
| five-stage pipeline | `Y86.dfy`, `WordAccess.dfy`, `Conditions.dfy`, `Sequential.dfy`, `Instructions.dfy`, `Pipeline.dfy`, `PipelineProof.dfy`, `PipelineLimits.dfy`, `WrongPaths.dfy`, `SavedPC.dfy`, `Suspension.dfy`, `Requests.dfy`, `ProgramGuards.dfy`, `Core.dfy` |
| virtual memory, fork, exec | `Paging.dfy`, `Isolation.dfy`, `AccessCodes.dfy`, `ExecImage.dfy`, `Pids.dfy`, `Runs.dfy`, `Leaks.dfy`, `ExecLeaks.dfy`, `VirtualMemory.dfy`, `KernelMemory.dfy` |
| cores over paged memory | `PagedAccess.dfy`, `PagedCore.dfy`, `Machine.dfy`, `FirstRun.dfy` |
| scheduler | `Scheduler.dfy`, `Scheduling.dfy`, `KernelScheduler.dfy` |
| L1 caches | `Caches.dfy`, `CacheStates.dfy`, `CacheValues.dfy`, `CacheSharing.dfy`, `CacheObject.dfy` |
| assembler | `Assembler.dfy`, `AssemblerLayout.dfy`, `AssemblerFetch.dfy`, `AssemblerOperands.dfy`, `AssemblerErrors.dfy`, `AssemblerObject.dfy` |

Each part has three layers. The objects (`Core`, `Mem`, `VM`, `Kernel`, `L1Cache`, `YAssembler`) change in place, step by
step, like the originals; every one of their methods is proved equal to a function on values. The functions say what one
operation does. The lemmas say what holds over whole runs.

The main results:

* **The pipeline is invisible.** What retires, the registers at every retirement, and memory and condition codes when the
  core stops are those of a machine that runs one instruction at a time, for every program that meets the guard
  `Sequential.SafeFrom` (`PipelineProof.PipelineRefinesSequential`). It makes linear progress and stops precisely. The
  part of the guard about wrong paths is exact for whole programs (`WrongPaths.PipelineExact`). What each instruction of
  that machine does is stated in plain arithmetic (`Instructions`).
* **Suspension is precise.** Whenever a core is asked to suspend its process, within ten cycles it has stopped behind one
  instruction of the program, with exactly the registers, memory and codes that one leaves, or it goes on as if nobody had
  asked (`Requests.AnyRequest`). Where the process is resumed is exact (`Suspension.SuspendResumes`, `SavedPC.CallResumes`).
* **Sharing is invisible.** Over any guarded interleaving of reads, writes, forks and execs by any number of processes,
  each sees what it would see if fork copied the whole address space (`Runs.SharingIsInvisible`).
* **Both together.** Programs on cores whose loads, stores and fetches go through copy-on-write page tables, in whatever
  order the cores are stepped and whatever forks, execs and context switches come in between, run as on a sequential
  machine with private memory (`Machine.ProgramsRunSequentially`, `Machine.OrderDoesNotMatter`). From power-on, a program
  with a loop, stores and a branch meets every guard for ever (`FirstRun.FirstProgram`).
* **The scheduler is fair and exact.** One process per core in both directions, pids 1..n, arrange dispatches exactly the
  processes stopped longest, and a waiting process is overtaken, and passed over with a core free, fewer times than there
  are processes. A core is asked for in the 51st cycle of its process exactly if somebody waits (`Scheduling.TimeSlice`).
* **One cache is invisible**, and any number of caches never hold two writable copies. Which copy a load shows is exact
  (`CacheSharing.LoadExact`).
* **The assembler's passes agree**, the fetch stage reads back what the assembler emits, and labels reach the core as the
  file offsets of what follows them (`AssemblerOperands.LabelOperand`).

Several properties are false of the code without a guard. For these there is an exact condition, in both directions:
`Conditions.GreaterOrEqualCondition` (jge), `PipelineLimits.LeaveHazardExact` (the load hazard behind leave),
`WrongPaths.PipelineExact` and `WrongPaths.RedirectExact` (wrong paths that run out of range), `SavedPC.CallResumes`
and `Suspension.SuspendResumes` (the address a process is resumed at), `Suspension.CodesAreLost` (condition codes
across a suspension), `PagedAccess.ReadExact` (pages that fork marks but nobody mapped), `Leaks.WriteExact` and
`Leaks.OthersExact` (writes to shared, read-only or missing pages), `Leaks.ForkThenWrite` (a second fork),
`Leaks.ForkBringsBack` (pages given up that fork makes valid again), `ExecImage.ExecMapsImage` and
`ExecLeaks.ExecGivesFrames` (sections that start inside a page), `ExecLeaks.ExecOthersExact` (an exec that writes into
frames of others), `CacheSharing.LoadExact` (a load over a stale line), `Caches.GetBitExact` (single bits),
`CacheValues.LazyWriteExact` (a write that misses), `AssemblerLayout.LayoutExact` (the alignment left over from pass
one) and `AssemblerFetch.EncodeFetch` (iaddl, and first edition numbering). Programs and states that fail are given by
`PipelineLimits.LeaveProgramDiverges`, `WrongPaths.BranchProgramDiverges`, `FirstRun.HoleAfterFork`,
`FirstRun.ChildSpoilsParent`, `ExecLeaks.ForkThenExecSpoils`, `Leaks.SecondForkLeaks`, `Leaks.TextWriteLeaks`,
`CacheValues.MissedWriteSpoilsBlock` and `AssemblerLayout.LeftOverAlignmentMovesData`.

Where the simulator's own README promises something else than the code does, the model follows the code. It promises an
exception for writes to read-only sections; `VM::write` sets an error code, writes the byte anyway and clears the code. It
says caches are synchronised; they are not connected to the cores at present.

Inputs from outside the model: what a system call other than exit, fork, execve and waitpid does to registers is not
modelled; the outcome of a core's run is a free choice in the scheduler; ELF files are given by their text, data and bss
length; assembler lines are already split into words.

## Model

| member | source | states |
|---|---|---|
| `PipelineProof.PipelineRefinesSequential` | core.cpp:187-701 | under the guards, after any number of cycles the retired instructions are in order those the sequential machine runs, registers agree then, the core stops exactly when it does, and then status, memory and condition codes agree |
| `PipelineProof.CycleKeepsInv` | core.cpp:693-701 | one cycle keeps the relation between every latch in flight and the sequential states before and after its instruction |
| `PipelineProof.Forwarding` | core.cpp:429-594 | the values stage D picks for the instruction in D are its source registers after all older instructions in flight, also when one instruction writes a register through both ports |
| `PipelineProof.ForwardingM` | core.cpp:429-594 | the same for the older half of the network: the values behind E are those after the instruction in M |
| `PipelineProof.MispredictCase` | core.cpp:213-236 | a branch that is not taken squashes the two instructions behind it, and fetch goes on at its fall-through address |
| `PipelineProof.ReturnCase` | core.cpp:196-224 | while a ret is in flight no instruction enters D, and fetch resumes at the address it loaded |
| `PipelineProof.LoadUseCase` | core.cpp:189-236 | a load/use hazard holds the reader in D, with an empty slot in E, and loses nothing |
| `PipelineProof.NormalCase` | core.cpp:187-253 | without hazard every instruction moves on one stage and the next one on the right path is fetched |
| `PipelineProof.ControlDiscipline` | core.cpp:187-253 | the control signals of any cycle fit together: what D holds is held in F and not squashed, E gets an empty slot exactly on a misprediction or when D holds its instruction, except behind leave, and F repeats only if D holds, D gets an empty slot or a suspension is due |
| `PipelineProof.WriteBack` | core.cpp:255-283 | the retiring instruction writes its two registers, the loaded value last, so the register file is that of the sequential machine |
| `PipelineProof.MemoryStage` | core.cpp:285-353 | the memory stage computes the access, the loaded value and the fault of the sequential instruction |
| `PipelineProof.ExecuteStage` | core.cpp:355-427 | the execute stage computes the value, destination, condition and condition codes of the sequential instruction, and none of the codes behind a stopping instruction |
| `PipelineProof.PreciseStop` | core.cpp:236-251 | once a stopping instruction is in M, registers, memory, condition codes and status are those it leaves, however many cycles follow |
| `PipelineProof.NothingEntersM` | core.cpp:236-251 | behind an instruction that stops the core M is a bubble that writes nothing, and memory stays |
| `PipelineProof.FaultFlag` | core.cpp:285-353 | the fault flag and the loaded value of M are those of the last access, and other instructions leave them alone |
| `PipelineProof.BubbleInE` | core.cpp:355-375 | a bubble in E computes 0, writes no register and leaves the codes alone |
| `PipelineProof.BubbleInD` | core.cpp:429-460 | a bubble in D reads and writes no register |
| `PipelineProof.DecodeReads` | core.cpp:460-520 | D reads the registers its instruction names after the writes of this cycle, and keeps what it read last where it names none |
| `PipelineProof.FetchReads` | core.cpp:622-677 | F keeps the registers and the constant it read last where an instruction has none |
| `PipelineProof.LastStays` | core.cpp:255-283 | a core that has halted or faulted keeps its last instruction in W, however many cycles follow |
| `PipelineProof.RetiresWithin` | core.cpp:187-253 | some instruction retires within the distance of the oldest one in flight to W |
| `PipelineProof.BubbleBound` | core.cpp:187-253 | after the first cycle at most three cycles in a row retire nothing, unless the core has stopped |
| `PipelineProof.LinearProgress` | core.cpp:187-253 | n cycles retire at least (n - 4) / 4 instructions, unless the core has stopped |
| `PipelineProof.LeaveHazard` | core.cpp:206-234 | in a load/use hazard the waiting instruction enters E early, with its old operands, and also stays in D, if and only if the load is leave |
| `PipelineLimits.LeaveHazardExact` | core.cpp:206-234 | in a load/use hazard whose waiting instruction completes, the cycle stays in step with the sequential machine if and only if the load is not leave |
| `PipelineLimits.RetiresTwice` | core.cpp:206-234 | behind leave the waiting instruction retires twice in a row |
| `PipelineLimits.LeaveProgramDiverges` | core.cpp:206-234 | leave; pushl %ebp; halt retires leave, pushl, pushl in the pipeline, and not what the sequential machine executes, for every stack above the code |
| `PipelineLimits.LeaveProgramWaits` | core.cpp:206-234 | in the third cycle of that program the pipeline is in step, leave is in E and pushl waits, and the next cycle breaks the relation |
| `PipelineProof.ImemErrorSticks` | core.cpp:622-645 | one fetch out of range turns every later fetch into an address fault |
| `WrongPaths.FlagTellsWrongPath` | core.cpp:608-645 | when a branch that is not taken or a ret redirects F, the flag is set if and only if a fetch behind it was out of range: the target or the instruction predicted after it, or the one behind the ret |
| `WrongPaths.RedirectExact` | core.cpp:608-645 | a cycle keeps the pipeline in step with the sequential machine if and only if it does not come back from a wrong path, to an address in range, with the flag set |
| `WrongPaths.WrongPathFaults` | core.cpp:608-645 | if it does, what is left in E and M retires and then, for ever, nothing but an address fault, which is not what the sequential machine executes |
| `WrongPaths.PipelineExact` | core.cpp:187-701 | a program that meets the other guards retires, for ever, what the sequential machine executes if and only if no instruction leaves a wrong path out of range for an address in range |
| `WrongPaths.BranchProgramDiverges` | core.cpp:608-645 | jne -1; nop; halt meets the other guards and does not retire what the sequential machine executes |
| `SavedPC.QueueStep` | core.cpp:355-361 | a cycle takes as many of the oldest queued addresses as it squashes calls and suspended instructions, and adds the address predicted behind one that it fetches |
| `SavedPC.WhenPops` | core.cpp:187-253 | a call or suspended instruction is squashed exactly by a branch that is not taken, by a ret that nothing holds up, or as a load that is waited for |
| `SavedPC.CallArrives` | core.cpp:429-691 | a system call on the right path that is first in the queue when it is fetched still is when it reaches E, two or three cycles later |
| `SavedPC.CallResumes` | core.cpp:187-691 | the core then stops with the registers, memory and codes of the sequential machine, and the address behind the call is first in the queue if and only if neither of the two cycles squashed another call |
| `SavedPC.FirstKept` | core.cpp:355-361 | over any number of cycles an address that is first in the queue, and only there, stays first if and only if nothing is squashed |
| `SavedPC.BranchLeaves` | core.cpp:429-450 | behind a branch that is not taken an address stays in the queue exactly if the first instruction at the target was a call |
| `Suspension.Asked` | core.cpp:187-253 | the cycle of the request marks the instruction in F, as it enters D or is fetched again |
| `Suspension.SuspendsBehind` | core.cpp:187-691 | a request that finds an instruction of the right path in F stops the core, four to six cycles later, behind exactly that instruction, with the registers, memory and codes it leaves, and status SSPD or its own fault |
| `Requests.AnyRequest` | core.cpp:187-691 | a request at any time, wrong paths and rets in flight included: within ten cycles the core has stopped like that behind the instruction that follows the one in M, in E or in D, or the request is lost and the pipeline is in step with the sequential machine |
| `Requests.ComesBack` | core.cpp:596-661 | when F comes back from a wrong path or a ret it holds the right instruction, marked if the request is still there and the instruction completes, and otherwise the pipeline is as if nobody had asked |
| `Suspension.SuspendResumes` | core.cpp:187-691 | the address predicted behind that instruction is first in the queue then if and only if no cycle after the request squashes a suspended instruction |
| `Suspension.PredictedIsNext` | core.cpp:666-677 | that is the next instruction of the program unless the last one was a ret or a branch that is not taken |
| `Suspension.CallIsLost` | core.cpp:187-253 | a request that finds a system call in F takes its place: the call goes on as a suspended instruction |
| `Suspension.CodesAreLost` | kernel.cpp:45-55 | the process goes on in the state it was suspended in if and only if its codes were those that init sets |
| `Suspension.CodesDecide` | core.cpp:80-93 | a jump that comes next goes the same way with other codes if and only if its condition is the same |
| `Conditions.SubtractionFlags` | core.cpp:95-131 | after a 32-bit subtraction the flags say equal, not representable, and the sign of the wrapped result |
| `Conditions.AdditionFlags` | core.cpp:95-131 | after a 32-bit addition the result is the sum modulo 2^32, and the flags say zero, negative, and sum not representable |
| `Conditions.BitwiseResult` | core.cpp:95-131 | bit k of andl and xorl is the and, or the exclusive or, of bits k of the operands |
| `Conditions.OtherFlags` | core.cpp:95-131 | the bitwise operations never overflow, set zero if no bit of the result is set and sign if its highest bit is; an undefined operation leaves the codes alone |
| `Conditions.ComparisonConditions` | core.cpp:80-131 | le, l, e, ne and g after subl or cmpl are the signed comparisons of B with A, for all 32-bit values |
| `Conditions.GreaterOrEqualCondition` | core.cpp:80-131 | ge is right if and only if the operands differ and their difference fits |
| `WordAccess.WordRoundTrip` | core.cpp:133-174 | a word written is read back as its 32-bit value, and no other byte changes |
| `WordAccess.StoreKeepsFetch` | core.cpp:133-185 | a store that misses the six bytes at an address leaves the instruction fetched there |
| `ProgramGuards.StableIfMissed` | core.cpp:622-677 | if the stores of this and the next instruction miss the six bytes of the next two fetches, the fetches of the pipeline are those of the final memory |
| `ProgramGuards.LoopIsSafe` | core.cpp:187-701 | a program with an endless loop, an addition, a store and a branch meets the guard of the pipeline for ever |
| `WordAccess.WriteBytesFrame` | core.cpp:133-151 | a store changes only the bytes it addresses, with 32-bit wrap-around of addresses |
| `Instructions.Decoding` | core.cpp:622-677 | the bytes at a PC in range as operation, function, two registers, a signed constant, length and status |
| `Instructions.LoadsWord` | core.cpp:153-174 | a word is its four bytes, little end first, as a signed number, or a fault if one is not accessible |
| `Instructions.StoresWord` | core.cpp:133-151 | a store writes the four bytes of the number, or faults |
| `Instructions.Rrmovl` | core.cpp:355-594 | rrmovl and the conditional moves copy rA to rB if the condition holds, and change nothing else |
| `Instructions.Irmovl` | core.cpp:355-594 | rB gets the constant |
| `Instructions.Rmmovl` | core.cpp:285-594 | rA is stored at rB + D |
| `Instructions.Mrmovl` | core.cpp:285-594 | rA is loaded from rB + D, or gets 0 and the machine stops with an address fault |
| `Instructions.AddlSubl` | core.cpp:95-131 | rB gets rB + rA or rB - rA reduced to 32 bits, with zero and sign of that and overflow if the exact result does not fit |
| `Instructions.AndlXorl` | core.cpp:95-131 | rB gets the and, or exclusive or, bit by bit, with zero and sign of that and no overflow |
| `Instructions.UndefinedOpl` | core.cpp:95-131 | another function number puts 0 into rB and leaves the codes alone |
| `Instructions.Cmpl` | core.cpp:355-427 | the codes of rB - rA, and no register |
| `Instructions.Jump` | core.cpp:608-677 | the PC is the constant if the condition of the jump holds, and the address behind it otherwise |
| `Instructions.Call` | core.cpp:285-677 | the address behind it is pushed, and the PC is the constant |
| `Instructions.Ret` | core.cpp:285-677 | the PC is popped |
| `Instructions.Pushl` | core.cpp:285-594 | rA, as it was before, is stored below the stack pointer, which goes there |
| `Instructions.Popl` | core.cpp:255-594 | rA is loaded from the stack and the stack pointer goes up; popl %esp keeps the loaded value |
| `Instructions.Leave` | core.cpp:255-594 | the stack pointer goes behind the word at %ebp, and %ebp is loaded from there |
| `Instructions.NothingElse` | core.cpp:622-661 | nop goes on; halt, a system call, an unknown instruction and a fetch out of range stop the machine, each with its status, and change nothing else |
| `Instructions.RegistersFit` | core.cpp:95-174 | registers stay signed 32-bit numbers |
| `CoreObject.Core.ReadMem` | core.cpp:153-174 | the byte loop with wrapping additions gives the word, or an error if a byte is not accessible |
| `CoreObject.Core.WriteMem` | core.cpp:133-151 | the byte loop stores the word and stops at the first byte that is not accessible |
| `CoreObject.Core.StageWrite` | core.cpp:255-283 | the whole core state after stage W |
| `CoreObject.Core.StageMemory` | core.cpp:285-353 | the whole core state after stage M |
| `CoreObject.Core.StageExecute` | core.cpp:355-427 | the whole core state after stage E |
| `CoreObject.Core.StageDecode` | core.cpp:429-594 | the whole core state after stage D |
| `CoreObject.Core.StageFetch` | core.cpp:596-691 | the whole core state after stage F |
| `CoreObject.Core.SingleRun` | core.cpp:693-701 | one call is one cycle of the pipeline function, on every field |
| `CoreObject.Core.Resume` | kernel.cpp:45-55 | init and the two branches of context_switch leave an empty pipeline: a saved process at its PC with its registers, a new one at 4 with its stack |
| `Pipeline.ProcessStarts` | kernel.cpp:45-55 | a process put on a core has its registers, ZF alone set, nothing pending and nothing in flight, and its PC is fetched first |
| `Pipeline.NewProcessStarts` | kernel.cpp:45-55 | one that has never run is fetched from 4, with %esp and %ebp at the end of its stack and 0 in the other registers |
| `Runs.SharingIsInvisible` | ysyscall.cpp:123-159 | over every guarded run of reads, writes, forks and execs, every read returns and every process sees what it would if fork copied everything, and the invariant holds |
| `Isolation.WriteRefines` | vm.cpp:120-156 | a guarded write, with or without copy, is a write to the writer's private flat memory and to nothing else |
| `Isolation.CopyRefines` | vm.cpp:134-146 | the page copy changes no view, keeps the invariant and leaves the page private and writable |
| `Isolation.CopyKeepsOwnView` | vm.cpp:134-146 | the copied page and all others of the process show the same bytes |
| `Isolation.PutRefines` | vm.cpp:147-151 | a byte put into a private frame shows in one process at one address |
| `Isolation.ForkRefines` | ysyscall.cpp:131-155 | fork gives the child the parent's view, changes no other, and keeps the invariant that a shared frame is protected in both page tables |
| `Isolation.ForkSpaceFacts` | ysyscall.cpp:136-155 | under fork's guard, which asks of copied pages no more than the exact condition of Leaks.ForkThenWrite, the re-marked space maps the same frames, and a write to any of its pages copies first or is impossible |
| `Isolation.MarkAreasPte` | ysyscall.cpp:136-145 | an entry becomes read-only exactly if a private read-write area touches its page, the closed end included |
| `Isolation.ForkProt` | ysyscall.cpp:136-145 | exactly the read-write bytes become copy-on-write |
| `ExecImage.ExecRefines` | ysyscall.cpp:176-210 | exec leaves exactly the text, data, zero bss and zero stack bytes, keeps an argument area's contents, changes no other view and keeps the invariant |
| `ExecImage.ExecProtections` | ysyscall.cpp:198-210 | after exec the text is read-only and so is the first byte behind it, because areas are closed at their end; the rest of data and bss and the stack from 0x3fff0000 on can be written, and nothing else below the arguments belongs to an area |
| `ExecImage.ExecAreas` | ysyscall.cpp:187-210 | the list of areas exec leaves, in lookup order |
| `ExecImage.MapFresh` | vm.cpp:42-47 | the page loop of a section adds exactly its pages, zero and private |
| `ExecImage.MapUnaligned` | vm.cpp:42-47 | a section that starts inside a page maps no page at all |
| `ExecImage.ExecPage` | vm.cpp:42-47 | a page of the image is mapped after exec exactly if a section that starts on a page covers it, or fork had marked it without a frame |
| `ExecImage.ExecMapsImage` | ysyscall.cpp:198-207 | after exec every byte of text, data and bss is mapped if and only if data and bss each start on a page or end on the page they start on, or the pages they miss had been marked by fork without frames |
| `ExecImage.WriteFresh` | vm.cpp:53-64 | writing a section places its bytes at its addresses and changes nothing else |
| `ExecImage.Clear` | ysyscall.cpp:178-196 | destroying the old image leaves the argument pages and their bytes |
| `Runs.ReadRefines` | vm.cpp:71-94 | a permitted read returns the byte of the process's view |
| `PagedAccess.ReadExact` | vm.cpp:71-94 | a read agrees with the memory the process should see, in value and in error, if and only if its page is not valid without a frame in a readable area; there it returns a byte of frame 0 |
| `PagedAccess.ForkMakesHole` | ysyscall.cpp:136-145 | fork leaves such a page at the closed end of every private area that ends on a page that is not there |
| `FirstRun.HoleAfterFork` | ysyscall.cpp:136-145 | whatever file the first process executes, its fork is within the guard, and afterwards it and its child read a byte of frame 0 at the end of the argument area, where they have no memory |
| `PagedAccess.WordRead` | core.cpp:153-174 | away from such pages the word loop reads the word of the visible memory, with its error, and leaves the page table alone |
| `PagedAccess.FreedPageFaults` | vm.cpp:20-24 | a page given up faults on every read, and no other page is affected |
| `PagedAccess.WordWriteRefines` | core.cpp:133-151 | a word stored through the page table, over as many copied pages as it takes and up to the first byte in no area, is the word stored to flat memory, with its error, and no other process sees it |
| `PagedAccess.PagedWordRoundTrip` | core.cpp:133-174 | a word written and read back through the page tables is there, and no other visible byte of any process changes, also across two pages that are both copied |
| `PagedCore.ReadMem` | core.cpp:153-174 | the byte loop over the page table gives value, error and the entries it adds |
| `PagedCore.WriteMem` | core.cpp:133-151 | the byte loop over the page table, up to the first error |
| `Runs.OrderOfCoresIsInvisible` | kernel.cpp:82-102 | two interleavings of the same writes of each process leave the same views, whatever frames are handed out |
| `Runs.BootInv` | kernel.cpp:5-11 | the invariant holds at the start |
| `Leaks.WriteExact` | vm.cpp:120-156 | a write in an area, without copy, is a write to the writer's memory and to nothing else if and only if the page is mapped, and no other page has the frame or the byte is there already; a read-only area does not prevent it |
| `Leaks.OthersExact` | vm.cpp:120-156 | any write in an area, to a page with or without frame, is unnoticed by every other process if and only if the page is copied first, or nobody else has the frame it goes to, which is frame 0 for a page without one, or the byte is there already |
| `Leaks.ForkBringsBack` | ysyscall.cpp:136-145 | a forked space shows what it showed before if and only if fork marks no page that was given up and has kept its old frame |
| `Leaks.ForkThenWrite` | ysyscall.cpp:136-155 | after a fork the parent's write leaves the child alone if and only if the page was not writable in a copy-on-write area that no read-write area touches |
| `Leaks.WriteUnprotects` | ysyscall.cpp:136-145 | after any fork, a write to a byte that was read-write leaves its page where the next fork does not protect it |
| `Leaks.SecondForkLeaks` | ysyscall.cpp:123-159 | from every guarded state: fork, write, fork again, and the parent's next write to the byte shows in the second child |
| `Leaks.TextWriteLeaks` | vm.cpp:129-151 | after exec and fork a write to the read-only text reports no error and shows in the other process |
| `ExecLeaks.ExecTold` | ysyscall.cpp:176-210 | after exec every byte of a frame in use before is as it was or the last byte of the image that went there, and the pages of the image have new frames but for those that no section starting on a page covers or that fork had marked |
| `ExecLeaks.ExecOthersExact` | ysyscall.cpp:176-210 | exec is unnoticed by every other process if and only if no byte of the image goes to a frame another process has mapped, to stay there, and differs from what was there |
| `ExecLeaks.NoStrayKeepsOthers` | ysyscall.cpp:176-210 | it is unnoticed if the sections fit and fork has left no entry without frame on a page of the image, whatever else is mapped |
| `ExecLeaks.ExecGivesFrames` | vm.cpp:42-47 | exec gives all bytes of text, data and bss frames that were not in use if and only if the sections fit and fork has left no entry without frame on their pages |
| `ExecLeaks.ExecSpoils` | vm.cpp:26-64 | a byte on the last page of an image, where that gets no frame, shows in every process that has mapped the frame the page had before, or frame 0 |
| `ExecLeaks.ForkThenExecSpoils` | vm.cpp:26-64 | from every guarded state: fork, and the child's exec of a file whose last section starts inside a page and ends on another one; the parent then sees the child's bytes on that page |
| `FirstRun.ChildSpoilsParent` | ysyscall.cpp:123-210 | the same from power-on: the first process executes a file and forks, the child executes another, and the parent's byte is the child's |
| `AccessCodes.AllocateLowest` | mem.h:27-37 | the lowest free frame below 2^30, or frame 0 and error 1 if there is none |
| `AccessCodes.PageRequest` | vm.cpp:6-18 | the error of a page request: 1 inside a page, 2 for a page that has an entry, and otherwise a new writable page |
| `AccessCodes.UnalignedError` | vm.cpp:42-47 | the error after the page loop of a section that starts inside a page is 1 if a page was missing |
| `AccessCodes.AlignedError` | vm.cpp:42-47 | the error after that of a section that starts on a page is 0 if a page was missing, and otherwise the one before |
| `AccessCodes.ReadAnswers` | vm.cpp:71-94 | value and error of a read, told from the valid bit of the page, the first area that holds the address, and its protection |
| `AccessCodes.ReadEnters` | vm.cpp:71-94 | a read that gets to a page without frame gives it frame 0, and no other read changes the page table |
| `AccessCodes.WriteAnswers` | vm.cpp:120-156 | error, page table and byte of a write: it fails exactly without an area, and copies exactly in a copy-on-write area with a read-only entry |
| `AccessCodes.CopiedBytes` | vm.cpp:134-146 | every byte of memory after a page copy, with a pending error and in the last page too |
| `AccessCodes.ForkAnswers` | ysyscall.cpp:136-145 | fork makes exactly the private read-write areas copy-on-write, and the pages from the one of their start to the one of their end read-only |
| `AccessCodes.ClearAnswers` | ysyscall.cpp:178-196 | exec makes exactly the valid pages outside the kept area invalid, leaves their frames in the table, and clears the error if there is one |
| `AccessCodes.KeptArea` | ysyscall.cpp:178-188 | exec keeps the first area named cmd_args |
| `AccessCodes.SectionAnswers` | vm.cpp:32-69 | a section with bytes leaves no error, and one without leaves the error it found |
| `Pids.NewPid` | ysyscall.cpp:124-130 | the new pid is the smallest positive number not in use |
| `VirtualMemory.Mem.AllocatePage` | mem.h:27-37 | the search loop finds the lowest free frame and takes it, or reports an error |
| `VirtualMemory.VM.AllocatePagePte` | vm.cpp:6-18 | a new entry for an aligned page that has none, with the error codes |
| `VirtualMemory.VM.Translate` | vm.cpp:26-30 | the physical address, and frame 0 entered for a page without frame |
| `VirtualMemory.VM.Read` | vm.cpp:71-94 | value and error of a read in every case, and the whole page table after it |
| `VirtualMemory.VM.ReadPage` | vm.cpp:136-138 | the buffer holds the page's bytes, or zeros if an error is pending; nothing is read in the last page of the address space, whose end wraps to 0 |
| `VirtualMemory.VM.WritePage` | vm.cpp:142-144 | the frame holds the buffer's bytes and nothing else changes; nothing is written in the last page |
| `VirtualMemory.VM.CopyPage` | vm.cpp:135-144 | the whole state after the copy, with and without a pending error, and in the last page |
| `VirtualMemory.VM.Write` | vm.cpp:120-156 | the error code is 0 exactly if an area holds the address, whatever its protection, and the whole state in every case |
| `VirtualMemory.VM.AllocateSection` | vm.cpp:32-69 | pages mapped, bytes written under a temporary read-write area, final area appended, next address and error code returned |
| `VirtualMemory.VM.MapSection` | vm.cpp:42-47 | the page loop gives frames to exactly the pages of a section that have none, as far as it starts on a page |
| `VirtualMemory.VM.WriteSection` | vm.cpp:53-64 | the byte loop writes the section in order, with the error code of each write passed to the next |
| `VirtualMemory.VM.MakeCopyOnWrite` | ysyscall.cpp:136-145 | the two nested loops turn the space into the function's fork of it |
| `VirtualMemory.VM.MarkPages` | ysyscall.cpp:139-143 | the page loop marks exactly the touched pages |
| `KernelMemory.Kernel.YFork` | ysyscall.cpp:123-159 | the whole system after fork is the step that SharingIsInvisible speaks of, and the child is a new object, for every fork whose loops end |
| `KernelMemory.Kernel.YExecve` | ysyscall.cpp:176-215 | the whole system after exec, whatever the sections, and with a pending error, is that of the exec function; without one it is the step that SharingIsInvisible speaks of |
| `KernelMemory.Kernel.Destroy` | ysyscall.cpp:178-196 | areas and entries of the old image go, in any order of the pages |
| `Machine.ProgramsRunSequentially` | kernel.cpp:82-127 | a program on a core whose loads, stores and fetches go through shared copy-on-write page tables, interleaved with other processes, forks, execs and context switches, has the retirements, registers, status, codes and memory of the sequential machine with private memory |
| `FirstRun.FirstProgram` | kernel.cpp:5-127 | from power-on, exec, the start of context_switch and any number of clocks meet every guard, and the pipeline over the page table is that of as many cycles alone and never stops |
| `FirstRun.FirstProgramRetires` | core.cpp:187-701 | what it retires, for ever and at a quarter instruction a cycle or more, is what the sequential machine executes |
| `Machine.CoresAreIndependent` | kernel.cpp:82-102 | in any run of clocks, forks, execs and context switches, the pipeline of a process that stays on its core, with the memory it sees, is that of as many cycles alone |
| `Machine.OrderDoesNotMatter` | kernel.cpp:82-102 | two runs that step a core equally often leave its process the same |
| `Machine.EventEffects` | kernel.cpp:45-127 | a fork adds a process with the memory its parent sees, an exec gives a process exactly its image and takes it off its core, a start puts it on one at its PC, and a stop takes it off |
| `Machine.PagedIsPrivate` | core.cpp:285-691 | a cycle whose loads, stores and fetches go through the page table, away from valid pages without frame, is a cycle on private memory and seen by no other process |
| `Machine.AccessIsPrivate` | core.cpp:285-353 | the access of stage M through the page table has value, error and effect of the access to visible memory |
| `Machine.FetchIsPrivate` | core.cpp:622-677 | the byte, register and constant reads of stage F through the page table fetch the instruction of visible memory and leave the page table alone |
| `Machine.ForkKeepsVisible` | ysyscall.cpp:131-155 | parent and child see after fork what the parent saw before |
| `Scheduling.BoundedOvertaking` | kernel.cpp:67-197 | while a process stays suspended and eligible, no more are dispatched than were ahead of it, fewer than there were processes, however many forks, suspensions and exits happen |
| `Scheduling.BoundedWaiting` | kernel.cpp:149-197 | a process that stays suspended and eligible is passed over in fewer cycles with a free core than there were processes |
| `Scheduling.AheadShrinks` | kernel.cpp:128-144 | nobody new gets ahead of a waiting process, and the dispatched ones leave |
| `Scheduling.OnlyThoseAhead` | kernel.cpp:157-178 | whoever is dispatched while an eligible process waits has been stopped at least as long |
| `Scheduling.ArrangeDispatches` | kernel.cpp:149-197 | arrange dispatches min(free cores, eligible) processes, those with the greatest stop times, moves no other, and if one is left over all cores are busy and overdue ones are signalled |
| `Scheduling.OneProcessPerCore` | kernel.cpp:33-65 | over every run a core holds a process exactly if that process runs and points back at it, busy cores and running processes are equally many, and pids are exactly 1..n |
| `Scheduling.EndedStaysEnded` | kernel.cpp:199-217 | a terminated process stays so over every run, and no process disappears |
| `Scheduling.Aging` | kernel.cpp:128-144 | before arrange a suspended process has aged by one cycle and a newly suspended one has age one |
| `Scheduling.RunTimes` | kernel.cpp:128-144 | before arrange a process that keeps running has run one cycle more, one that leaves its core has lost its run time, and no other run time changes |
| `Scheduling.SignalExact` | kernel.cpp:128-197 | after a cycle the core of a process that stays on it is signalled if and only if the process has run for more than 50 cycles and somebody still waits for a core |
| `Scheduling.RunTimeCounts` | kernel.cpp:128-144 | over every run in which a process keeps its core, its run time grows by the number of cycles |
| `Scheduling.TimeSlice` | kernel.cpp:128-197 | a dispatched process that keeps its core is asked to give it up in the 51st and every later cycle exactly if somebody waits, and in none before |
| `Scheduling.SliceStarts` | kernel.cpp:45-65 | a dispatched process starts with run time 0, on a core without signal |
| `Scheduling.OutcomeOf` | kernel.cpp:106-127 | what each outcome of a core's run means for its process, its core, its times and a possible child: who ends, who is suspended, who may run again after waitpid; and that no other process changes |
| `Scheduling.StallEnds` | kernel.cpp:349-359 | a process that waits for another is held until exactly the outcome that ends that one |
| `Scheduling.BootInv` | kernel.cpp:5-31 | the state after init and the first context switch meets the invariant, for any number of cores |
| `Scheduler.AddChildKeeps` | ysyscall.cpp:124-134 | the new pid is one more than the number of processes, and the invariant is kept |
| `Scheduler.SortSorts` | kernel.cpp:161-173 | the selection sort gives a permutation in falling order of stop time |
| `Scheduler.MaxIndex` | kernel.cpp:162-169 | the index has the greatest stop time of the part searched |
| `Scheduler.SignalAll` | kernel.cpp:188-195 | exactly the cores whose process has run for more than 50 cycles get a new signal |
| `Scheduler.Ticks` | kernel.cpp:129-142 | each suspended process gets one cycle older and each running one has run one cycle more, and no other time changes |
| `Scheduler.DispatchProcess` | kernel.cpp:175-186 | the first of the list run, with run time 0, and all others are as before |
| `Scheduler.ContextSwitchKeeps` | kernel.cpp:53-65 | a dispatch of a suspended process to an idle core keeps the pairing of cores and processes |
| `KernelScheduler.Kernel.Terminate` | kernel.cpp:199-217 | the whole scheduling state after a termination |
| `KernelScheduler.Kernel.Suspend` | kernel.cpp:219-239 | the whole scheduling state after a suspension; nothing for an ended process |
| `KernelScheduler.Kernel.YFork` | ysyscall.cpp:123-134 | the child's pid and record |
| `KernelScheduler.Kernel.HandleCore` | kernel.cpp:106-127 | what follows each outcome of a core's run, as the function of the outcome |
| `KernelScheduler.Kernel.CalcTimes` | kernel.cpp:129-142 | the loop over all processes makes each running or stopped one a cycle older |
| `KernelScheduler.Kernel.CollectWaiting` | kernel.cpp:152-157 | the eligible processes in order of their pids |
| `KernelScheduler.Kernel.FindLongest` | kernel.cpp:162-169 | the inner loop finds the first of the greatest stop times |
| `KernelScheduler.Kernel.SortWaiting` | kernel.cpp:161-173 | sorting by swaps in the array is the selection sort function |
| `KernelScheduler.Kernel.DispatchWaiting` | kernel.cpp:175-186 | the loop over cores is the dispatch function, and says how many went |
| `KernelScheduler.Kernel.SignalOverdue` | kernel.cpp:188-195 | the loop over all processes signals exactly the cores of overdue ones |
| `KernelScheduler.Kernel.Arrange` | kernel.cpp:149-197 | the whole state after arrange |
| `KernelScheduler.Kernel.Cycle` | kernel.cpp:67-147 | one clock tick is one step of the runs the theorems speak of |
| `CacheValues.CacheIsInvisible` | cache.h:29-114 | one cache used as load on a miss, then read or write, returns for every load the byte stored last, across any evictions, on all addresses below the last block |
| `CacheValues.BurstLoadKeeps` | cache.h:59-87 | a load, with the write-back of its victim, changes no byte and makes its block present |
| `CacheValues.LazyWriteByte` | cache.h:89-114 | what a write does to every byte, also when it takes over a line without loading |
| `CacheValues.LazyWriteExact` | cache.h:108-113 | a write is a write to flat memory if and only if its block is cached or the old line happens to hold the block's other bytes |
| `CacheValues.MissedWriteSpoilsBlock` | cache.h:108-113 | a concrete pair of writes after which a third address has changed |
| `CacheValues.WriteBackKeeps` | cache.h:45-57 | writing a line back changes no byte, whatever the state of the line |
| `CacheValues.ZeroShows` | cache.h:22-27 | a zeroed cache over zeroed memory meets the premise |
| `CacheStates.SingleWriter` | cache.h:45-114 | over any sequence of loads and writes by any caches, a modified line is the only valid one with its tag, and no line rests in state E |
| `CacheStates.BurstLoadLine` | cache.h:59-87 | state and tag of every line of every cache after a load |
| `CacheStates.LazyWriteLine` | cache.h:89-114 | state and tag of every line of every cache after a write |
| `CacheStates.WriteThenRead` | cache.h:29-44 | among any number of caches, the one that has written a byte hits with it and every other misses |
| `CacheSharing.LoadSharesModified` | cache.h:59-87 | among any number of caches, a load of a block that another has modified writes it to memory and shows every byte of it, if the loader's line had another tag |
| `CacheSharing.LoadShowsOldMemory` | cache.h:59-87 | a block nobody has modified is shown as it is in memory |
| `CacheSharing.LoadKeepsStale` | cache.h:59-87 | a load into a line that has the tag already writes its old copy over everything and shows that |
| `CacheSharing.LoadExact` | cache.h:59-87 | a load shows the byte another cache has modified if and only if the loader's line had another tag or the same byte |
| `CacheSharing.LoadMemory` | cache.h:59-87 | every byte of memory after a load: the old line's in the block it belongs to, elsewhere what the flush left |
| `CacheSharing.FlushedByte` | cache.h:66-75 | the flush writes the one modified copy to its block, from any cache, and changes no other byte |
| `CacheSharing.LoadBlocks` | cache.h:59-87 | a load changes no block but the line it fills |
| `CacheSharing.WriteEffect` | cache.h:89-114 | a write changes one byte of one block, and of memory exactly the block of a line with another tag that it pushes out |
| `Caches.Slicing` | cache.h:30-41 | tag, line and offset cut a 32-bit address without loss |
| `Caches.Joining` | cache.h:77-78 | tag, line and offset put together give an address with these parts |
| `Caches.GetBitExact` | bit.cpp:2-12 | get_bit gives the bits asked for if and only if there is more than one or it is 0 |
| `CacheObject.L1Cache.ImmediateWrite` | cache.h:45-57 | the loop writes the line's block and makes the line shared |
| `CacheObject.L1Cache.FlushOthers` | cache.h:66-75 | the loop over all caches writes back modified copies |
| `CacheObject.L1Cache.BurstLoad` | cache.h:59-87 | the state of all caches and memory after a load |
| `CacheObject.L1Cache.LazyWrite` | cache.h:89-114 | the state of all caches and memory after a write |
| `AssemblerLayout.LayoutExact` | y86-code/yas.py:226-347 | with positive alignments and no .pos going back, every line's bytes are in the file at exactly the offset pass one recorded if and only if each leading data line, stretched to the left-over alignment, ends before every later line with bytes |
| `AssemblerLayout.OutputExact` | y86-code/yas.py:332-347 | the output loop puts every line at its recorded offset if and only if the recorded lines do not overlap |
| `AssemblerLayout.LabelIsOffset` | y86-code/yas.py:168-182 | a label is the offset of the instruction or data that follows it |
| `AssemblerLayout.Positions` | y86-code/yas.py:192-210 | where each line starts and the next one does: .pos at its operand, .align at the first multiple, instructions and data where the line before ended |
| `AssemblerLayout.AlignUpLeast` | y86-code/yas.py:201-203 | the aligned position is the first multiple at or after the old one |
| `AssemblerLayout.RecordedLine` | y86-code/yas.py:192-210 | pass one records the position before a line, and pass two makes as many bytes as the line's length under the left-over alignment |
| `AssemblerLayout.EncodedLength` | y86-code/yas.py:81-111 | every encoding has the length of the instbyte table |
| `AssemblerLayout.LeftOverAlignmentMovesData` | y86-code/yas.py:226-302 | a program whose data moves because pass two starts with the alignment pass one ended with |
| `AssemblerLayout.WrittenStays` | y86-code/yas.py:332-347 | nothing in the file is overwritten or moved |
| `AssemblerLayout.GapsAreZero` | y86-code/yas.py:332-347 | every byte of the file belongs to a line or is 0 |
| `AssemblerErrors.AssembleExact` | y86-code/yas.py:144-330 | a program is assembled if and only if no label is repeated, no alignment is 0, every instruction has operands of its form, and every word is a label of some line or a number |
| `AssemblerErrors.EncodeAccepts` | y86-code/yas.py:237-282 | which operands each instruction takes |
| `AssemblerErrors.RegisterByte` | y86-code/yas.py:237-278 | the register byte of every form, with 15 for no register and 8 in first edition numbering |
| `AssemblerErrors.RemainderSign` | y86-code/yas.py:201-203 | the remainder in alignment has the sign of the alignment |
| `AssemblerFetch.EncodeFetch` | y86-code/yas.py:237-278 | fetch recovers icode, ifun, registers, constant and length of every instruction if and only if it is not iaddl and second edition numbering is used or makes no difference |
| `AssemblerFetch.DigitsRead` | y86-code/yas.py:122-138 | the digits of any number, negative or not, read back as that number modulo 256^n |
| `AssemblerFetch.BigEndian` | y86-code/yas.py:122-138 | big-endian digits are the little-endian ones from the other end |
| `AssemblerFetch.CodeParts` | y86-code/yas.py:50-80 | the first byte is the core's icode and ifun, but for nop and halt in first edition numbering |
| `AssemblerOperands.LabelOperand` | y86-code/yas.py:237-278 | the constant fetched with a jump, call or irmovl of the file whose operand is a label is the file offset of the instruction or data behind the label |
| `AssemblerOperands.WordFetched` | y86-code/yas.py:237-278 | the constant fetched is the label's offset, and that of a word that is no label its number, as a 32-bit value |
| `AssemblerOperands.LabelData` | y86-code/yas.py:284-302 | data whose value is a label holds the file offset of what is behind the label |
| `AssemblerOperands.DataWord` | y86-code/yas.py:284-302 | data holds its label's offset or its number, modulo 256 to the power of its length |
| `AssemblerObject.YAssembler.EndianStr` | y86-code/yas.py:122-138 | the two loops give the digits in either byte order |
| `AssemblerObject.YAssembler.PassOne` | y86-code/yas.py:162-216 | the loop over the lines gives the labels, positions and alignment of the first pass, and whether a label is repeated or an alignment is 0 |
| `AssemblerObject.YAssembler.PassTwo` | y86-code/yas.py:226-306 | the loop over the lines gives the bytes of the second pass, with the alignment it inherits |
| `AssemblerObject.YAssembler.WriteBinary` | y86-code/yas.py:332-347 | the loop over the lines writes the bytes of the output function that OutputExact is about |
| `AssemblerObject.YAssembler.RunAssembler` | y86-code/yas.py:144-347 | the file, or an error in any line |

## Left out

- PipelineProof.PipelineRefinesSequential: asks that stores do not change the next two instructions fetched, that wrong-path fetches stay in range unless the next instruction is a fault anyway, that register numbers used are below 8, that the instruction after leave does not read %ebp, and that no suspension is requested (`Suspension` is about that); `Sequential.Safe` states each for the program, `PipelineLimits` and `WrongPaths` give a failing program for two of them, and `ProgramGuards` shows how a program is checked.
- PipelineLimits.LeaveHazardExact: is exact for the cycle in which the hazard occurs; whether what retires later differs depends on whether the instructions that follow happen to retire alike.
- Runs.SharingIsInvisible: asks for the guards of each step (`Isolation.WriteOK`, `Isolation.ForkOK`, `ExecImage.ExecOK`, `Runs.Readable`); `Leaks` and `ExecLeaks` say exactly what happens without them.
- VirtualMemory.VM.MarkPages: an area that reaches the last page of the address space is left out, because the loop of the original never ends there; the same for `VirtualMemory.VM.MakeCopyOnWrite` and `KernelMemory.Kernel.YFork`.
- ExecLeaks.ExecOthersExact: asks for frames enough for the image, which must lie below the stack; without frames allocate_page hands out frame 0.
- VirtualMemory.VM.AllocateSection: a section whose end wraps around the address space is left out; the same for `VirtualMemory.VM.MapSection`, `VirtualMemory.VM.WriteSection` and `KernelMemory.Kernel.YExecve`.
- KernelMemory.Kernel.Destroy: a process with pages but no argument area is left out, because the original then reads an area it never set; keys of the page table are pages.
- VirtualMemory.Mem.Read: does not enter the default 0 that a C++ map inserts when a missing byte is read; the same for missing entries of pgd_valid.
- AssemblerFetch.EncodeFetch: is about the little-endian order, which is the default.
- CoreObject.Core.SingleRun: the latch fields of the original, about seventy, are grouped by stage in five records; register numbers 8 to 14 read as 0 and write nothing, where the original goes outside its array; rA and rB of the fetch stage, which init does not set, start as 0.
- Machine.ProgramsRunSequentially: a process that is taken off its core and put back starts with an empty pipeline, whose registers and PC are given by the event; that they are the right ones is not proved.
- KernelScheduler.Kernel.Cycle: the scheduling fields of a process are a record in the pid table rather than fields of a VM object, the cores of all CPUs are one array, and erasing from a map while iterating is taken to erase the entry.
- KernelScheduler.Kernel.ContextSwitch: the branch for an old process is left out, since every caller passes none.
- CacheObject.L1Cache.BurstLoad: the valid, tag and block arrays are sequence fields of the object; the error flag of physical writes from address 2^31 on is not modelled.
- CacheValues.CacheIsInvisible: is about one cache; with several, reloading an invalid line writes its stale block back first, so values are not coherent and only states are proved.
- AssemblerObject.YAssembler.RunAssembler: bytes stand for pairs of hexadecimal digits; the .yo listing, the digits file and the operand rnone are left out.
- SavedPC.CallResumes: asks that the call is first in the queue when it reaches E; what stays in the queue from earlier wrong paths is told for branches (`SavedPC.BranchLeaves`), not for a ret that waits for a load.
- Suspension.SuspendResumes: is about requests that find F on the right path at the address it predicted, with nothing queued.
- Requests.AnyRequest: asks that F has fetched something since the process was put on its core, and that what is in flight before F completes.
- A child gets its parent's last saved registers; the scheduler model has no registers, and treats suspension as an outcome.
- Threads and data races on shared maps: cores step one after the other, in any order.
- File tables, open, read, write, ELF parsing, argument copying, the console, windows and logging.
- The mechanics of splitting assembler lines, comments and regular expressions.
