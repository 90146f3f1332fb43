# Procore kernel and c4: a Dafny model

Procore is a uCore-derived SMP teaching kernel; its user programs include c4, a C compiler in four
functions. This project models the parts of the repository with the most state and branching and
proves what they promise, for every input, every run and every reachable state. Code that updates
structures in place is modelled by classes and methods with loops; each such method is tied to a
specification function, and the promises are proved about that function.

## What is proved

**Address spaces** (`Vma.dfy`, `AddressSpace.dfy`). The VMA list of `mm_struct` as a sorted, disjoint,
page-aligned list. The meaning of a list is the partial function from addresses to flags, and each of
`mm_map`, `mm_unmap`, `mm_mprotect` and `dup_mmap` is proved to change that function on exactly the
requested pages and nowhere else, with the exact condition of each error return; `mm_brk` is proved to do so
exactly when its heap area is whole. The
cached lookup gives the answer of the plain scan, and `get_unmapped_area` the lowest hole.

**Copy-on-write memory** (`PageTables.dfy`, `CowState.dfy`, `CowSteps.dfy`, `CowRuns.dfy`, `CowMemory.dfy`,
`CowCases.dfy`). Page tables, frame reference counts, swap slots and their counts. Reference counts equal
the number of entries, a writable entry has no second user, and entries lie in areas. `CowRuns.Served` says
what each request does to what every space reads, to the area lists and to the faulting entry, from the state
before it alone; forks, for instance, succeed exactly under `CowSteps.Forkable`. The main theorem,
`CowMemory.Memory.Run` with `CowRuns.RunRefines`, is that over every sequence of faults, stores, forks, unmaps,
protection changes, heap moves, swap-outs and exits, with any allocation or device failures, each request does
that, and every address space reads what it would read had each fork copied every page at once.

**c4** (`C4Syntax.dfy` to `C4Compiler.dfy`). The compiler class, with its back-patching and its
rewriting of the last emitted load, is proved to compute a recursive parser; the parser is proved to
turn every printed program into reference code, precedence and associativity included; and reference
code is proved to do on the virtual machine what the source does, through calls of any depth, loops,
early returns and side effects. `C4Program.CompiledCall` joins the three.

**Physical pages and the SLOB heap** (`PageAlloc.dfy`, `SlobRing.dfy`, `Slob.dfy`). First fit with
coalescing: the lowest run is returned, NULL only when there is none, neighbours are always merged, and
every page is free or handed out, never both. SLOB: a ring sorted by address with merging on both sides,
whose units are free, handed out, or outside the heap.

**Synchronisation** (`Monitor.dfy`, `Dining.dfy`, `DiningSema.dfy`). Hoare monitors built from semaphores:
over every interleaving one token is in exactly one place. On top of it, and separately on semaphores,
the dining philosophers for any number of at least two (the source has five): neighbours never eat together
and nobody deadlocks.

**Scheduling** (`SkewHeap.dfy`, `Stride.dfy`, `RunQueues.dfy`). The in-place skew heap refines heaps of
values; the wrapping signed comparison is a total preorder within a window, and rounds among
tasks that may all run keep the strides in one. Per-CPU run queues: over every run of wakeups, reschedules,
finished switches, sleeps, exits, steals, balancing, stops, affinity changes and new processes, a task is in at
most one queue, of a CPU in its mask, and a runnable task is on a CPU or in a queue: none is lost.

**Networking** (`Tcp.dfy`, `Checksum.dfy`, `Frames.dfy`). The sending half of a TCP socket: the queue
holds exactly the unacknowledged end of the byte stream, retransmissions carry stream bytes at their
sequence numbers, and the FIN takes the number after the last byte, once. The checksum of RFC 1071,
and round trips of UDP and TCP frames through builder and parser.

**Descriptors, pipes, pids** (`Pipe.dfy`, `Descriptors.dfy`, `Streams.dfy`, `Files.dfy`, `Pids.dfy`). The descriptor
tables of all processes hold descriptions, which hold pipes, which are ring buffers in arrays. Over every
interleaving of reads, writes, dup, dup2, F_DUPFD, pipe, fork and close (`Files.FileTables.Drive`,
`Streams.StreamLaw`), for each pipe the bytes that reads returned followed by the bytes in the ring are the bytes
that writes accepted, and both ends' counts are the open descriptors, so end of file means that the ring is
empty and nobody can write any more. `get_pid` returns the first free number going round.

## What the proofs found

- `mm_mprotect` makes a present entry writable without looking at the frame's reference count. A page
  that was read-only when it was forked is shared without the COW bit, so enabling writes afterwards lets
  a store show in the other process. Exclusive ownership survives the call if and only if
  `CowSteps.Protectable` holds beforehand (`CowSteps.ProtectExclusive`). `CowCases.WriteEnablingLeaks` goes from boot
  to such a store by a map, an access and a fork, and `Memory.Run` stops before such a request.
- The PROT_NONE branch of `do_pgfault` cannot be reached: a hidden entry only exists under an area with no
  access, which the checks before it refuse.
- `mm_unmap` that fails for want of memory has already discarded the pages of the range. It fails exactly when
  an area reaches past both ends of the request (`Memory.Unmap`); `CowCases.FailedUnmapLoses` loses a written byte.
- c4's `||` and `&&` give the deciding operand instead of 0 or 1. They decide as C does, and their value is
  C's if and only if the deciding operand is 0 or 1 (`C4Correct.LogicMeans`, `C4Correct.LogicExample`).
- A SLOB request of one unit, which `kmalloc(0)` makes, is met by the permanent arena if and only if slobfree
  points at the arena's predecessor, and the heap is sound afterwards if and only if it was not
  (`SlobHeap.SlobAlloc`). On a fresh heap no link changes, so the next such request gets the same block
  (`Slob.ArenaTwice`).
- `net_tcp_retransmit` resends data only in ESTABLISHED, although `net_socket_send` also queues data in
  CLOSE_WAIT (`TcpSender.Retransmit`). What is queued when the peer's FIN arrives is never sent again
  (`Tcp.CloseWaitNeverResends`).
- `default_init_memmap` appends its region without merging. The list stays in order and coalesced if and only
  if the region lies above the last one and does not touch it (`PageAllocator.InitMemmap`).
- `mm_mprotect` can split the heap area. A later `mm_brk` that lowers the break sets the end of the first half
  without looking at the second, and the two overlap. The list stays in order if and only if the area still
  ends before the next one (`AddressSpace.Brk`, `AddressSpaces.ResizeExact`); `AddressSpaces.SplitHeapOverlaps` is the case.
- Strides are compared by a wrapped signed difference, which is sound while all strides lie in a window of
  BIG_STRIDE. When masks keep the least task off a CPU, the others run on, and the comparison can turn round
  (`Stride.MaskedInverts`). A round keeps the window if and only if the raised stride still fits in it
  (`Stride.MaskedRound`); when every task may run on the CPU the window simply moves along (`Stride.RoundsKeep`).

## Model

| member | source | states |
|---|---|---|
| VmaList.Scan | kern/mm/vmm.c:89-113 | a result of the plain scan is an area of the list that covers the address |
| VmaList.ScanHits | kern/mm/vmm.c:89-113 | on a sorted disjoint list the scan finds the one area that covers an address |
| VmaList.InsertedFlags | kern/mm/vmm.c:126-155 | inserting an area that overlaps none gives its pages its flags and keeps every other page |
| VmaList.InsertedValid | kern/mm/vmm.c:126-155 | inserting at the first later area keeps the list sorted, disjoint, aligned, with distinct structures |
| VmaList.CutFlags | kern/mm/vmm.c:271-346 | cutting a range clears the flags of exactly that range |
| VmaList.CutValid | kern/mm/vmm.c:271-346 | cutting keeps the list sorted, disjoint and aligned, also when one area becomes two |
| VmaList.ClippedCovers | kern/mm/vmm.c:300-345 | the page runs discarded by an unmap are together exactly the mapped part of the request |
| VmaList.SplitAtFlags | kern/mm/vmm.c:390-433 | splitting an area changes no flag of any address |
| VmaList.SplitAtValid | kern/mm/vmm.c:390-433 | splitting keeps the list sorted, disjoint and aligned |
| VmaList.SplitAtEdges | kern/mm/vmm.c:390-433 | a split leaves a boundary at the split point and makes no other one disappear |
| VmaList.SetFlagsFlags | kern/mm/vmm.c:435-446 | with boundaries at both ends, the flag loop changes exactly the requested addresses |
| VmaList.SetFlagsValid | kern/mm/vmm.c:435-446 | the flag loop keeps the list valid |
| AddressSpaces.AddressSpace.FindVma | kern/mm/vmm.c:89-113 | the lookup through mmap_cache equals the plain scan, whatever the cache holds |
| AddressSpaces.AddressSpace.Insert | kern/mm/vmm.c:126-155 | the area goes to its sorted place; exactly its pages get its flags |
| AddressSpaces.AddressSpace.Map | kern/mm/vmm.c:174-215 | E_INVAL exactly for a malformed request or an overlap, E_NO_MEM exactly for a failed allocation, and otherwise exactly the rounded range gets the flags |
| AddressSpaces.AddressSpace.CutOne | kern/mm/vmm.c:300-345 | one round of the unmap loop replaces an area by what the cut leaves of it, or fails when a second structure is needed and missing |
| AddressSpaces.AddressSpace.Unmap | kern/mm/vmm.c:271-346 | clears exactly the requested pages; fails exactly for a bad range or a straddled area without memory, leaving the list alone; names the page runs discarded |
| AddressSpaces.AddressSpace.UnmapPages | kern/mm/vmm.c:290-346 | the same for a checked range |
| AddressSpaces.AddressSpace.CoversAll | kern/mm/vmm.c:371-388 | the coverage loop answers whether every page of the range lies in some area |
| AddressSpaces.AddressSpace.SplitLeft | kern/mm/vmm.c:390-409 | the left edge is a boundary afterwards; fails exactly when a split is needed and there is no memory |
| AddressSpaces.AddressSpace.SplitRight | kern/mm/vmm.c:411-433 | the same at the right edge |
| AddressSpaces.AddressSpace.SetFlagsIn | kern/mm/vmm.c:435-446 | every area inside the range takes the new flags |
| AddressSpaces.AddressSpace.Mprotect | kern/mm/vmm.c:352-446 | every error, also one after a partial split, leaves all flags as they were; success changes exactly the requested pages; each error has its exact condition |
| AddressSpaces.AddressSpace.ProtectPages | kern/mm/vmm.c:390-446 | the same for a checked and covered range |
| AddressSpaces.AddressSpace.GetUnmappedArea | kern/mm/vmm.c:219-256 | the lowest aligned hole of the rounded size below the mmap limit, and 0 exactly when there is none |
| AddressSpaces.MapAtHole | kern/mm/vmm.c:174-256 | mapping at an address get_unmapped_area returned cannot fail for its range or an overlap |
| AddressSpaces.AddressSpace.UserMemCheck | kern/mm/vmm.c:1005-1030 | true exactly when every byte of the range lies in an area with the needed permission, writes keeping off the guard page of a stack |
| AddressSpaces.AddressSpace.DupFrom | kern/mm/vmm.c:591-618 | the copy holds the same areas in fresh structures with the heap pointer on the copied heap area; a failed allocation leaves the areas copied so far |
| AddressSpaces.AddressSpace.Brk | kern/mm/vmm.c:528-589 | the exact failure condition, a failure changing nothing; growing gives exactly the new pages the heap's flags; after shrinking the list is in order if and only if the area still ends before the next one, which a whole heap ensures, and then exactly the pages above the break are gone |
| AddressSpaces.AddressSpace.ShrinkHeap | kern/mm/vmm.c:543-562 | the heap area ends at the new break or goes; the list stays in order exactly when it fits; a whole heap loses exactly the pages above the break |
| AddressSpaces.AddressSpace.GrowHeap | kern/mm/vmm.c:566-588 | succeeds exactly for a fresh heap with nothing in the way or an area that ends at the old break with room after it; maps exactly the new pages |
| AddressSpaces.ResizeExact | kern/mm/vmm.c:543-588 | moving an area's end keeps the list sorted and disjoint if and only if it still ends before the next area |
| AddressSpaces.SplitHeapOverlaps | kern/mm/vmm.c:556-558 | a heap split by mprotect for which lowering the break makes two areas overlap |
| AddressSpaces.ResizeFlags | kern/mm/vmm.c:556-588 | moving an area's end gives or takes exactly the pages between the two ends |
| CowState.DropKeeps | kern/mm/pmm.c:453-488 | dropping an entry keeps counts, exclusivity and placement, and zeroes one page of one space |
| CowState.PutKeeps | kern/mm/pmm.c:641-660 | installing an entry keeps the invariant when a writable entry gets an otherwise unused frame; no other page is affected |
| CowState.StoreKeeps | kern/mm/vmm.c:943-972 | a store through a writable entry shows in exactly one address space |
| CowState.FillFree | kern/mm/pmm.c:675-698 | writing a free frame shows nowhere |
| CowState.FillSlot | kern/mm/swap.c:237-255 | writing a free swap slot shows nowhere |
| CowState.AreasKeep | kern/mm/vmm.c:174-215 | changing the area lists where no entry is affected keeps the invariant and all contents |
| CowSteps.FreshKeeps | kern/mm/pmm.c:675-698 | mapping a fresh frame with the contents the page already shows changes nothing visible |
| CowSteps.RemarkKeeps | kern/mm/vmm.c:949-958 | changing the bits of an entry that keeps its frame is invisible; it may become writable when it is the only user |
| CowSteps.SwapOutKeeps | kern/mm/swap.c:226-265 | moving an unshared page to a slot keeps the invariant and is invisible |
| CowSteps.CopyKeeps | kern/mm/pmm.c:568-622 | sharing one entry at fork keeps the invariant; the child reads the parent's page |
| CowSteps.CopyWhole | kern/mm/vmm.c:591-618 | after all ranges are copied the child reads exactly what the parent read, everywhere |
| CowSteps.ForkArea | kern/mm/vmm.c:598-616 | the next area given to the child touches no page it already has |
| CowSteps.ProtectBalanced | kern/mm/vmm.c:448-481 | mprotect's page-table loop keeps reference counts and contents |
| CowSteps.ProtectExclusive | kern/mm/vmm.c:448-481 | after mprotect writable entries have one user if and only if no unmarked shared page in the range was made writable |
| CowSteps.ProtectPlaced | kern/mm/vmm.c:448-481 | after mprotect the entries agree with the new area flags |
| CowCases.WriteEnablingLeaks | kern/mm/vmm.c:448-481 | from boot by a map, an access and a fork to a state in which enabling writes is a leaking request, after which one process's store changes the other's page |
| CowCases.FailedUnmapLoses | kern/mm/vmm.c:300-333 | a failing unmap that loses a written byte of an area that is still mapped |
| CowSteps.RoomAfter | kern/mm/swap.c:70-88 | a copy that went through had room in every slot count for each of the parent's entries |
| CowSteps.NoRoom | kern/mm/swap.c:70-88 | a copy that met a full slot count had not |
| CowMemory.Memory.constructor | kern/mm/pmm.c:158-186 | all frames and slots free, no address space; the invariant holds |
| CowMemory.Memory.AllocPage | kern/mm/pmm.c:158-186 | takes a free frame, or fails exactly when there is none |
| CowMemory.Memory.RefDec | kern/mm/pmm.c:453-488 | one reference less; the last one frees the frame |
| CowMemory.Memory.RemoveEntry | kern/mm/pmm.c:453-488 | the entry goes and its frame or slot loses one reference |
| CowMemory.Memory.UnmapRange | kern/mm/pmm.c:490-544 | every entry of the range goes with its references, no other entry changes |
| CowMemory.Memory.Fault | kern/mm/vmm.c:799-1003 | no fault changes what any address space reads; it succeeds exactly when the area, the access and the memory allow; then the page is present, and writable for a write |
| CowMemory.Memory.FirstTouch | kern/mm/vmm.c:911-921 | an untouched page becomes a private zero page, or memory has run out |
| CowMemory.Memory.BreakCow | kern/mm/vmm.c:939-972 | a write to a shared page gets a private copy, to an unshared one the write bit; fails exactly without memory for the copy |
| CowMemory.Memory.SwapIn | kern/mm/vmm.c:973-998 | a swapped page comes back with its contents and its slot reference is dropped; errors leave everything alone |
| CowMemory.Memory.MapFrame | kern/mm/pmm.c:641-660 | the entry names the new frame, the old target loses a reference |
| CowMemory.Memory.Store | kern/mm/vmm.c:777-799 | a store goes through exactly for a present writable entry and changes one byte of one page of one space |
| CowMemory.Memory.FindSlot | kern/mm/swap.c:47-68 | the lowest slot without references, or none exactly when all are used |
| CowMemory.Memory.SwapOutPage | kern/mm/swap.c:198-270 | one unshared resident page moves to a slot and one frame becomes free; nobody can tell |
| CowMemory.Memory.SwapOut | kern/mm/swap.c:190-274 | the free frames grow by the number of pages swapped, at most n; contents are unchanged; none is swapped only if no victim within the scan limit can be |
| CowMemory.Memory.CopyEntry | kern/mm/pmm.c:580-618 | one entry is shared; it fails exactly for a slot count at its limit |
| CowMemory.Memory.CopyRange | kern/mm/pmm.c:568-622 | the child can read the parent's pages up to where it stopped; it gets to the end if and only if there is a page table wherever the parent has an entry and room in every slot count |
| CowMemory.Memory.UnmapRuns | kern/mm/vmm.c:258-346 | the listed runs lose all their entries and nothing outside the range changes |
| CowMemory.Memory.Unmap | kern/mm/vmm.c:271-346 | the pages of the range read as zeros again, also when splitting an area fails; every other page is as before |
| CowMemory.Memory.Exit | kern/mm/vmm.c:620-633 | the space loses every entry, all its references are given back, other spaces are untouched |
| CowMemory.Memory.Protect | kern/mm/vmm.c:352-482 | contents, counts and placement are kept; exclusivity exactly under the stated condition |
| CowMemory.Memory.MapArea | kern/mm/vmm.c:174-215 | a new area reads as zeros until it is touched |
| CowMemory.Memory.Fork | kern/mm/vmm.c:591-618 | succeeds if and only if every area gets a structure, every entry a page table and every slot count has room; then the child has the parent's entries, read-only in both, and reads exactly what the parent reads; a failed fork leaves every space as it was |
| CowMemory.Memory.MoveEnd | kern/mm/vmm.c:543-588 | the heap area's end moves; exactly the pages above a lower end read as zeros again |
| CowMemory.Memory.ProtectAll | kern/mm/vmm.c:352-482 | mprotect with its splits: a split that fails leaves contents, and at most one more boundary between areas |
| CowMemory.Memory.Serve | kern/mm/vmm.c:799-1003 | each request, accepted or refused, has the effect that the state before it determines, on contents, areas and the faulting entry |
| CowMemory.Memory.Run | kern/mm/vmm.c:591-1003 | over every run each request has its determined effect and lazily copied memory reads like eagerly copied memory; a run stops only before a leaking mprotect |
| CowRuns.RunRefines | kern/mm/vmm.c:591-1003 | any run of such requests reads like the eager run of the operations they stand for |
| CowRuns.LeftPages | kern/mm/vmm.c:390-409 | the left split alone changes no flag and does not affect whether the right one is needed |
| CowRuns.ReprotectedPages | kern/mm/vmm.c:390-446 | both splits and the flag loop change exactly the requested pages |
| C4Print.PrintReads | user/c4.c:171-319 | a tree printed with minimal parentheses compiles to its reference code and leaves the tokens after it: precedence climbing is inverse to printing |
| C4Print.OperandReads | user/c4.c:273-297 | binary operators of all levels associate to the left and bind as their ranks say |
| C4Print.ChooseReads | user/c4.c:325-338 | if with else, with both patched jumps |
| C4Print.LogicReads | user/c4.c:271-272 | short-circuit operators with their patched jump |
| C4Print.ArgsRead | user/c4.c:195-200 | call arguments are read in order, each pushed |
| C4Print.FirstToken | user/c4.c:171-253 | no expression begins with a token that ends an argument list or starts a statement |
| C4Print.IfReads | user/c4.c:262-270 | the conditional operator, right associative, with its two patched jumps |
| C4Print.StmtReads | user/c4.c:321-368 | a printed statement compiles to its reference code and leaves the tokens after it |
| C4Print.BlockReads | user/c4.c:356-360 | a printed block compiles to the code of its statements in order |
| C4Machine.Execute | user/c4.c:519-558 | the machine loop computes the iterated step function |
| C4Frames.FrameCells | user/c4.c:446-485 | parameters and locals have distinct stack words, exactly the frame around the saved bp and return address |
| C4Frames.VarHolds | user/c4.c:204-209 | the address compiled for a variable holds its value |
| C4Frames.VarStored | user/c4.c:257-261 | storing at that address is the assignment and changes no other variable |
| C4Correct.EvalRuns | user/c4.c:171-319 | the code of every expression, run on the machine, computes its value and side effects and leaves the stack as it was |
| C4Correct.LogicRuns | user/c4.c:271-272 | the right operand is skipped exactly when the left one decides |
| C4Correct.ChooseRuns | user/c4.c:325-338 | exactly the chosen branch of an if with else runs |
| C4Correct.StepRuns | user/c4.c:243-252 | pre-increment and decrement give the new value, with 32-bit wrap-around |
| C4Correct.PostRuns | user/c4.c:298-308 | post-increment and decrement store the new value and give the old one |
| C4Correct.NotByXor | user/c4.c:236-236 | exclusive-or with -1 is the bitwise complement |
| C4Correct.JoinOperands | user/c4.c:273-297 | the left value survives on the stack while the right operand runs |
| C4Correct.ArgsRun | user/c4.c:192-202 | arguments are evaluated left to right onto the stack |
| C4Correct.FrameHolds | user/c4.c:524-528 | after JSR and ENT the frame holds exactly the arguments |
| C4Correct.InvokeRuns | user/c4.c:519-558 | a call of any depth returns to its caller with the value, the globals and the caller's stack and bp |
| C4Correct.ExecRuns | user/c4.c:321-368 | the code of every statement does what the statement does, returns included |
| C4Correct.LoopRuns | user/c4.c:339-349 | while loops of any number of rounds |
| C4Correct.IfRuns | user/c4.c:262-270 | exactly one branch of a conditional expression runs |
| C4Correct.LogicMeans | user/c4.c:271-272 | the logical operators decide as in C; their value is C's if and only if the deciding operand is 0 or 1 |
| C4Correct.LogicExample | user/c4.c:271-272 | an input on which the value is not C's |
| C4Program.ParamsRead | user/c4.c:449-463 | printed parameters are read back with their frame positions |
| C4Program.LocalsRead | user/c4.c:465-482 | printed locals are read back with their frame positions |
| C4Program.BodyFrame | user/c4.c:446-485 | the operands of a function's variables lie in the frame that ENT makes |
| C4Program.FunctionReads | user/c4.c:446-495 | a printed function compiles to ENT, its body and LEV |
| C4Program.ProgramReads | user/c4.c:411-504 | a printed program compiles to the code of its functions in order, with globals laid out in order |
| C4Program.ProgramLinked | user/c4.c:446-495 | every function's code lies at the entry its calls use |
| C4Program.CompiledCall | user/c4.c:411-558 | calling any function of a compiled program gives the value and globals the source gives, for all programs and arguments whose source evaluation is defined |
| C4Compiler.Compiler.Expr | user/c4.c:171-319 | the in-place precedence climber computes the recursive parser, failures included |
| C4Compiler.Compiler.Primary | user/c4.c:175-253 | the part before the operator loop computes the parser's primary |
| C4Compiler.Compiler.StepVariable | user/c4.c:243-252 | the last emitted word is rewritten exactly if it is a load |
| C4Compiler.Compiler.Call | user/c4.c:190-202 | arguments and call code as the parser emits them; fails on a name that is no function |
| C4Compiler.Compiler.Right | user/c4.c:256-308 | one operator with its right operand |
| C4Compiler.Compiler.Logical | user/c4.c:271-272 | the emitted jump is patched to the first word after the right operand |
| C4Compiler.Compiler.Conditional | user/c4.c:262-270 | both jumps are patched |
| C4Compiler.Compiler.Stmt | user/c4.c:321-368 | the statement compiler computes the recursive parser |
| C4Compiler.Compiler.Else | user/c4.c:332-337 | the pending jump is patched over the optional second branch |
| C4Compiler.Compiler.While | user/c4.c:339-349 | the backward jump and the patched exit |
| C4Compiler.Compiler.Block | user/c4.c:356-360 | the statements up to the closing brace |
| C4Compiler.Compiler.Params | user/c4.c:449-463 | parameters enter the symbol table in order; duplicates are refused |
| C4Compiler.Compiler.Locals | user/c4.c:467-482 | locals enter the symbol table in order; duplicates are refused |
| C4Compiler.Compiler.Function | user/c4.c:446-495 | the function's code is emitted and its locals are unwound from the symbol table |
| C4Compiler.Compiler.Compile | user/c4.c:413-504 | the declaration loop computes the program parser |
| PageAlloc.LowestRun | kern/mm/default_pmm.c:87-118 | a run of n free pages exists only if a block of at least n pages does, and the lowest run starts a block |
| PageAlloc.NoLongBlock | kern/mm/default_pmm.c:90-117 | when the search reaches the end no n consecutive pages are free |
| PageAlloc.Found | kern/mm/default_pmm.c:96-98 | the first block of at least n pages holds the lowest run of n pages |
| PageAlloc.FreeJoins | kern/mm/default_pmm.c:120-166 | freeing keeps the list ascending and maximally coalesced on both sides |
| PageAlloc.SplitCoalesced | kern/mm/default_pmm.c:99-114 | taking the front of a block leaves the rest coalesced |
| PageAlloc.HandedOut | kern/mm/default_pmm.c:87-118 | a taken run is owned by its allocation and overlaps no other |
| PageAlloc.GivenBack | kern/mm/default_pmm.c:120-166 | a freed run is owned by nobody and no other allocation is affected |
| PageAlloc.PageAllocator.constructor | kern/mm/default_pmm.c:62-66 | an empty free list |
| PageAlloc.PageAllocator.InitMemmap | kern/mm/default_pmm.c:68-85 | the region joins the end of the list as one block; the list stays ascending and coalesced if and only if it lies above the last page without touching it |
| PageAlloc.PageAllocator.AllocPages | kern/mm/default_pmm.c:87-118 | the lowest run of n free pages, NULL exactly when there is none; each managed page stays free or handed out |
| PageAlloc.PageAllocator.Take | kern/mm/default_pmm.c:99-114 | exactly the first n pages of the block leave the list |
| PageAlloc.PageAllocator.FreePages | kern/mm/default_pmm.c:120-166 | exactly the freed pages join the list, nr_free is the number of free pages, blocks are coalesced |
| PageAlloc.PageAllocator.MergeRight | kern/mm/default_pmm.c:134-149 | the pages enter at their place and take over the block that follows |
| PageAlloc.PageAllocator.MergeBack | kern/mm/default_pmm.c:150-166 | the block before takes over the freed one when they touch |
| SlobRing.Unlink | kern/mm/kmalloc.c:125-126 | unlinking a block keeps the ring sorted by address with one wrap |
| SlobRing.Shorten | kern/mm/kmalloc.c:127-132 | cutting the front off a block keeps the ring and frees up exactly those units |
| SlobRing.LinkKeeps | kern/mm/kmalloc.c:155-184 | linking a block in with merging on either side keeps the ring |
| SlobRing.LinkFree | kern/mm/kmalloc.c:155-184 | linking makes exactly the new units free |
| Slob.StopsAtPlace | kern/mm/kmalloc.c:169-171 | the search of slob_free stops exactly at the address's place in the ring |
| Slob.FitsAtPlace | kern/mm/kmalloc.c:169-171 | a block that is not free fits between its neighbours there |
| Slob.HandOut | kern/mm/kmalloc.c:100-153 | free units become a handed-out block that overlaps no other |
| Slob.TakeBack | kern/mm/kmalloc.c:155-184 | a handed-out block becomes free units |
| Slob.DropBlock | kern/mm/kmalloc.c:187-206 | whole pages leave the ring and the heap |
| Slob.ArenaTwice | kern/mm/kmalloc.c:100-136 | two one-unit requests on a fresh heap both get the arena |
| Slob.SlobHeap.constructor | kern/mm/kmalloc.c:76-77 | the arena alone, linked to itself |
| Slob.SlobHeap.FindFit | kern/mm/kmalloc.c:108-138 | the first block with room going round from slobfree, or none exactly when all are too small; for one unit the very next block |
| Slob.SlobHeap.Take | kern/mm/kmalloc.c:125-136 | an exact fit is unlinked, a larger block loses its front; taking the arena itself leaves the heap unsound, with exactly the stated links |
| Slob.SlobHeap.FindPlace | kern/mm/kmalloc.c:169-171 | the search ends at the block after which the address belongs |
| Slob.SlobHeap.Link | kern/mm/kmalloc.c:173-184 | the link and merge assignments compute the linked heap |
| Slob.SlobHeap.FindBefore | kern/mm/kmalloc.c:190-197 | the search from the arena finds the predecessor |
| Slob.SlobHeap.Unlist | kern/mm/kmalloc.c:198-203 | the block leaves the ring, slobfree never points at it |
| Slob.SlobHeap.SlobFree | kern/mm/kmalloc.c:155-210 | the block is merged; the merged block is returned to the page allocator exactly if it is page-aligned whole pages other than the arena |
| Slob.SlobHeap.SlobAlloc | kern/mm/kmalloc.c:100-153 | a fresh block of n units by first fit, after one page from the page allocator exactly when nothing fits; NULL changes nothing; the arena is handed out if and only if one unit is asked for while slobfree points at its predecessor, and exactly then the heap is unsound |
| Monitor.OnlyActive | kern/sync/monitor.c:37-83 | the process running inside is alone, and no semaphore holds a token |
| Monitor.SignallerWaits | kern/sync/monitor.c:75-79 | an up of next has a suspended signaller to take it |
| Monitor.WaiterWaits | kern/sync/monitor.c:51-56 | an up of a condition has a waiting process to take it |
| Monitor.StepKeeps | kern/sync/monitor.c:37-83 | every step of enter, leave, signal and wait keeps the token and the counters |
| Monitor.RunKeeps | kern/sync/monitor.c:8-83 | so does every interleaving |
| Monitor.MonitorSafe | kern/sync/monitor.c:8-83 | in every reachable state exactly one token exists, at most one process is inside, and a token on next or a condition has a blocked process that can take it |
| Dining.NeighbourNumbers | kern/sync/check_sync.c:7-9 | the neighbours as the source numbers them |
| Dining.StepKeepsTable | kern/sync/check_sync.c:110-159 | every step of taking and putting forks keeps the table's invariant |
| Dining.RunKeepsTable | kern/sync/check_sync.c:110-180 | so does every interleaving |
| Dining.DiningSafe | kern/sync/check_sync.c:110-180 | in every run neighbours never eat together, a philosopher with forks is eating, and when the monitor is free every hungry one has an eating neighbour |
| Dining.StepCalled | kern/sync/check_sync.c:110-159 | every step keeps: a philosopher that waits although it may eat has its signal or a signaller about to give it |
| Dining.DiningProgress | kern/sync/check_sync.c:110-180 | in every state that a run reaches some philosopher can take a step |
| DiningSema.StepKeeps | kern/sync/check_sync.c:24-50 | every step of the semaphore version keeps its invariant |
| DiningSema.RunKeeps | kern/sync/check_sync.c:24-70 | so does every interleaving |
| DiningSema.DiningSafe | kern/sync/check_sync.c:24-70 | the same safety for the semaphore version; outside the critical section eating is having forks or the semaphore that gives them |
| DiningSema.DiningProgress | kern/sync/check_sync.c:24-70 | in every state that a run reaches some philosopher can take a step |
| SkewHeap.DiffInWindow | kern/schedule/default_sched.c:15-24 | within a window of BIG_STRIDE the wrapped signed difference is the true one |
| SkewHeap.TotalPreorder | kern/schedule/default_sched.c:15-24 | within a window the comparison is a total preorder |
| SkewHeap.MergeOrdered | libs/skew_heap.h:29-59 | merging keeps heap order and exactly the nodes of both heaps |
| SkewHeap.RootLeast | libs/skew_heap.h:29-59 | the root comes no later than any node |
| SkewHeap.RemoveOrdered | libs/skew_heap.h:69-85 | removing any node keeps heap order and all other nodes |
| SkewHeap.RaiseThenRemove | kern/schedule/default_sched.c:143-172 | raising a node's stride in place and removing it later still leaves an ordered heap |
| Stride.FindsLeast | kern/schedule/default_sched.c:32-56 | the search for an allowed task finds a least stride among the allowed, and nothing only when none is allowed |
| Stride.WindowMoves | kern/schedule/default_sched.c:143-172 | raising the least stride keeps all strides in a window |
| Stride.RoundKeeps | kern/schedule/default_sched.c:91-172 | a round picks a least task and keeps the tasks, the heap order and the window |
| Stride.RoundsKeep | kern/schedule/default_sched.c:91-172 | so do any number of rounds of a set of tasks |
| Stride.WindowStays | kern/schedule/default_sched.c:143-172 | raising any stride keeps the window if and only if the new stride fits in it |
| Stride.MaskedRound | kern/schedule/default_sched.c:32-172 | with arbitrary masks a round picks a least allowed task and keeps the tasks; it keeps heap order and window if and only if the raised stride fits |
| Stride.MaskedInverts | kern/schedule/default_sched.c:15-56 | two tasks for which a round makes the one that has just run compare as earlier than the one that has waited |
| Stride.StrideQueue.MergeNodes | libs/skew_heap.h:29-59 | the pointer merge computes the merge of the two trees and writes only their links |
| Stride.StrideQueue.InsertNode | libs/skew_heap.h:61-67 | insertion computes the merge with a single node |
| Stride.StrideQueue.RemoveNode | libs/skew_heap.h:69-85 | removal through parent pointers computes the removal from the tree |
| Stride.StrideQueue.Enqueue | kern/schedule/default_sched.c:91-106 | the task joins the heap |
| Stride.StrideQueue.Dequeue | kern/schedule/default_sched.c:116-129 | the task leaves the heap, all others stay |
| Stride.StrideQueue.PickNext | kern/schedule/default_sched.c:143-172 | the task that the search finds, with its stride raised |
| Stride.StrideQueue.Find | kern/schedule/default_sched.c:32-56 | the pointer search computes the search on the tree |
| Stride.StrideQueue.Requeue | kern/schedule/default_sched.c:91-172 | pick, dequeue and enqueue are one round of the specification |
| RunQueues.OneQueue | kern/schedule/sched.c:38-53 | a task is in at most one run queue, of a CPU in its mask |
| RunQueues.EnqueueKeeps | kern/schedule/sched.c:38-46 | queueing a task that is in no queue keeps queues and task fields in agreement |
| RunQueues.DequeueKeeps | kern/schedule/sched.c:48-53 | so does taking a task out |
| RunQueues.Scheduler.constructor | kern/schedule/sched.c:146-168 | empty queues |
| RunQueues.Scheduler.Enqueue | kern/schedule/sched.c:38-46 | exactly this task becomes queued, on this CPU |
| RunQueues.Scheduler.Dequeue | kern/schedule/sched.c:48-53 | exactly this task leaves |
| RunQueues.Scheduler.Pick | kern/schedule/sched.c:332-339 | some task of the queue allowed on the CPU, or none exactly when there is none |
| RunQueues.Scheduler.ChooseCpu | kern/schedule/sched.c:55-75 | the least loaded allowed CPU, the task's own one among equals; none exactly when none is allowed |
| RunQueues.Scheduler.EnqueueProc | kern/schedule/sched.c:77-102 | queues exactly a runnable task that neither runs nor waits in a queue and has an allowed CPU, on a least loaded one |
| RunQueues.Scheduler.Wakeup | kern/schedule/sched.c:258-288 | stopped and zombie tasks are left alone; any other becomes runnable and is queued afterwards unless it runs or has no CPU |
| RunQueues.Scheduler.Stop | kern/schedule/sched.c:292-309 | the task is stopped and in no queue; no other task moves in or out |
| RunQueues.Scheduler.SetAffinity | kern/schedule/sched.c:181-204 | a queued task stays queued on an allowed CPU; the exact condition for being queued afterwards |
| RunQueues.Scheduler.Steal | kern/schedule/sched.c:119-144 | a task of another queue that may run here leaves its queue; none exactly when no queue has one |
| RunQueues.Scheduler.Balance | kern/schedule/sched.c:206-256 | one task moves from a most to a least loaded queue, exactly if their loads differ by more than one and some task may run there; no task is lost or gained |
| RunQueues.Scheduler.Extremes | kern/schedule/sched.c:218-231 | a most and a least loaded queue |
| RunQueues.Scheduler.Schedule | kern/schedule/sched.c:311-363 | the previous task is requeued exactly if it can go on; the next one is in no queue, may run here and is marked running |
| RunQueues.Scheduler.Requeue | kern/schedule/sched.c:323-341 | the part under the CPU's own queue lock |
| RunQueues.Scheduler.Choose | kern/schedule/sched.c:323-345 | the CPU's own queue first, then the others; whoever is chosen is the only task not accounted for |
| RunQueues.Scheduler.SwitchDone | kern/process/proc.c:243-274 | the task is off its CPU; if it is runnable and has a CPU it is in a queue; a dead task's waiting parent is woken; nobody is lost |
| RunQueues.Scheduler.WakeReady | kern/schedule/sched.c:258-288 | a wakeup loses nobody |
| RunQueues.Scheduler.Leave | kern/process/proc.c:1090-1097 | the running task goes to sleep or ends; nobody is lost |
| RunQueues.Scheduler.SetMask | kern/process/proc.c:1214-1235 | refused exactly for an empty mask, a CPU that is not online or a dead task; otherwise the mask is set and nobody is lost |
| RunQueues.Scheduler.Spawn | kern/process/proc.c:572-600 | a new task, not yet runnable, with its parent's mask |
| RunQueues.ReadyOthers | kern/schedule/sched.c:258-363 | a step that changes one task leaves all others on a CPU or in a queue |
| RunQueues.Drive | kern/schedule/sched.c:38-363 | over every run of scheduler steps a task is in at most one queue, of a CPU in its mask, and every runnable task is on a CPU or in a queue |
| Tcp.AckStands | kern/net/net.c:346-369 | what an acknowledgement leaves is the unacknowledged rest of the queue, still contiguous |
| Tcp.WindowOf | kern/net/net.c:311-321 | the usable window is bounded by the peer's, the congestion window and the maximum |
| Tcp.Grown | kern/net/net.c:323-344 | a congestion step grows the window by at least one up to the maximum (slow start and congestion avoidance, section 3.1 of RFC 5681) |
| Tcp.GrownBy | kern/net/net.c:716-724 | growth over all acknowledged bytes stays within the maximum and is strict below it |
| Tcp.HoldsAcked | kern/net/net.c:706-730 | after an acknowledgement the queue is still the end of the byte stream |
| Tcp.OldestBytes | kern/net/net.c:939-965 | the oldest segment carries the stream's bytes at its sequence number and contains the first unacknowledged one |
| Tcp.TcpSender.constructor | kern/net/net.c:1095-1130 | an established connection with nothing sent |
| Tcp.TcpSender.SendChunk | kern/net/net.c:1800-1888 | a chunk of exactly the size that data, segment and window allow extends queue and stream; waiting, EPIPE and EINVAL each have their exact condition |
| Tcp.TcpSender.AckSegments | kern/net/net.c:346-369 | exactly the wholly acknowledged segments leave; their bytes are counted |
| Tcp.TcpSender.Congestion | kern/net/net.c:716-724 | one growth step per MSS acknowledged |
| Tcp.TcpSender.NewAck | kern/net/net.c:709-738 | snd_una advances, the acknowledged segments leave, the window grows, an acknowledged FIN moves the state |
| Tcp.TcpSender.DuplicateAck | kern/net/net.c:746-765 | two duplicates only count; the third halves the window and arms the oldest segment (fast retransmit, section 3.2 of RFC 5681) |
| Tcp.TcpSender.ReceiveAck | kern/net/net.c:706-767 | an acceptable acknowledgement advances, any other changes no bytes; a waiting FIN may start exactly when everything is acknowledged |
| Tcp.TcpSender.ReceiveSegment | kern/net/net.c:693-803 | the ACK, then the peer's FIN, then a waiting FIN of our own, which goes exactly when this segment acknowledges everything, into LAST_ACK or FIN_WAIT_1 as the peer has finished or not |
| Tcp.TcpSender.StartFin | kern/net/net.c:1329-1395 | the FIN takes the number after the last byte, exactly once and only when all data is acknowledged |
| Tcp.TcpSender.Shutdown | kern/net/net.c:1397-1472 | no more data; a FIN exactly when all is acknowledged and the device takes it, otherwise one is left waiting; a closed socket refuses |
| Tcp.TcpSender.Close | kern/net/net.c:1159-1168 | the socket is closed |
| Tcp.TcpSender.Retransmit | kern/net/net.c:908-1042 | data sent again is the stream's bytes at that number and contains the first unacknowledged one; exactly when it is sent; the FIN is sent again with its own number |
| Tcp.TcpSender.ResendData | kern/net/net.c:939-965 | the oldest segment goes again until its retries end, which halves the window |
| Tcp.CloseWaitNeverResends | kern/net/net.c:939-965 | data queued when the peer's FIN arrives is not sent again, however often the timer runs out |
| Tcp.TcpSender.ReceiveFin | kern/net/net.c:775-798 | the state after the peer's FIN |
| Tcp.TcpSender.ReceiveReset | kern/net/net.c:700-705 | a reset closes the connection |
| Tcp.TcpSender.Serve | kern/net/net.c:700-798 | any event keeps the queue equal to the unacknowledged end of the stream; the stream only grows and snd_una only advances |
| Tcp.TcpSender.Drive | kern/net/net.c:700-1042 | so does every run of events; the FIN's number never changes and nothing follows it |
| Checksum.SumConcat | kern/net/net_proto.c:42-64 | summing even-length parts one after the other is summing the whole |
| Checksum.FoldStep | kern/net/net_proto.c:33-40 | adding the carries keeps the value modulo 65535 (RFC 1071) |
| Checksum.Accumulate | kern/net/net_proto.c:7-18 | the byte loop computes the big-endian word sum, an odd byte padded, without 32-bit overflow |
| Checksum.Fold | kern/net/net_proto.c:33-40 | the fold loop ends with the 16-bit folded value |
| Checksum.Compute | kern/net/net_proto.c:33-40 | the complement of the folded word sum |
| Checksum.ChecksOut | kern/net/net_proto.c:33-40 | data checks out exactly if its words sum to a non-zero multiple of 65535 |
| Checksum.SelfCheck | kern/net/net_proto.c:33-40 | a sum with its own complement added folds to all ones |
| Frames.ComputeTransport | kern/net/net_proto.c:42-99 | the three passes compute the checksum over pseudo-header, header and payload |
| Frames.IpChecks | kern/net/net_proto.c:120-168 | a built IPv4 header checks out (section 3.1 of RFC 791) |
| Frames.PassesIp | kern/net/net_proto.c:185-211 | a built frame passes the parsers' IPv4 checks with any padding after it |
| Frames.CheckIp | kern/net/net_proto.c:185-211 | a header that passes has 20 to 60 bytes inside the frame and its total length |
| Frames.UdpRoundTrip | kern/net/net_proto.c:120-234 | parsing a built UDP frame gives back ports, addresses and payload, with any padding |
| Frames.TcpFields | kern/net/net_proto.c:261-314 | every field of a built TCP header is read back |
| Frames.TcpRoundTrip | kern/net/net_proto.c:261-386 | parsing a built TCP frame gives back every field and the payload, with any padding (section 3.1 of RFC 9293) |
| Pipes.RingTake | kern/fs/file.c:542-556 | taking from the front of the ring moves the head |
| Pipes.RingStore | kern/fs/file.c:592-612 | storing at the tail appends |
| Pipes.StoredBy | kern/fs/file.c:597-609 | the two copies of a write store the data around the end of the buffer |
| Pipes.RoundsStream | kern/fs/file.c:534-627 | rounds of reading and writing keep: bytes out and bytes in the ring are the bytes in |
| Pipes.Pipe.constructor | kern/fs/file.c:508-526 | an empty pipe without ends, with the creator's reference |
| Pipes.Pipe.Read | kern/fs/file.c:534-574 | the oldest bytes come out, as many as asked or there are; end of file exactly for an empty pipe without writers |
| Pipes.Pipe.Write | kern/fs/file.c:576-627 | as many bytes as fit go in, in order; EPIPE exactly without readers |
| Pipes.Pipe.Store | kern/fs/file.c:597-609 | the two memcpy calls write the ring |
| Pipes.Pipe.CountEnd | kern/fs/file.c:109-146 | one descriptor more or less at one end, no byte moves |
| Pipes.Pipe.CountRef | kern/fs/file.c:177-183 | one reference more or less |
| Descriptors.OpenKeeps | kern/fs/file.c:218-230 | one more descriptor keeps all counts equal to the open slots |
| Descriptors.CloseKeeps | kern/fs/file.c:232-253 | one descriptor less keeps them, and its reference is still held |
| Descriptors.ReleaseKeeps | kern/fs/file.c:255-280 | dropping a reference, also the last one of a description or a pipe, keeps them |
| Descriptors.PipeKeeps | kern/fs/file.c:629-701 | a new pipe with its two descriptors keeps them |
| Descriptors.NoEnd | kern/fs/file.c:109-131 | the count of an end is zero exactly when no open descriptor of any process is at that end |
| Streams.StepStreams | kern/fs/file.c:109-819 | each operation grows each stream by exactly what its outcome says, and no name is used again |
| Streams.RunStreams | kern/fs/file.c:109-819 | so does every run |
| Streams.StreamLaw | kern/fs/file.c:109-819 | after every run, for each pipe left, bytes read and bytes in the ring are the bytes written, what the run wrote and read is what its writes accepted and its reads returned in order, and counts are open descriptors |
| Streams.EndsOfFile | kern/fs/file.c:534-627 | in every run end of file is reported exactly for an empty ring that no open descriptor can write, and a broken pipe exactly when none can read |
| Streams.FreeFrom | kern/fs/file.c:293-320 | the lowest free slot, none exactly when all are taken |
| Files.FileTables.FreeSlot | kern/fs/file.c:293-320 | the lowest free slot, or none exactly when all are taken |
| Files.FileTables.Open | kern/fs/file.c:330-336 | the slot names the description, whose counts grow by one |
| Files.FileTables.CloseSlot | kern/fs/file.c:339-349 | the slot is closed and the endpoint counted down; the reference stays with the caller |
| Files.FileTables.Put | kern/fs/file.c:255-280 | the last reference frees the description and the last description the pipe |
| Files.FileTables.Close | kern/fs/file.c:471-488 | exactly this slot is closed and its reference put; E_BADF exactly for a closed slot |
| Files.FileTables.Dup | kern/fs/file.c:996-1038 | the new slot names the same description, the lowest free one or the given one, which is closed first; the exact error condition; no byte of a remaining pipe moves |
| Files.FileTables.Replace | kern/fs/file.c:1021-1036 | a slot is made to name another one's description; no byte of a remaining pipe moves |
| Files.FileTables.DupFrom | kern/fs/file.c:1065-1088 | the lowest free slot from the given number on; the exact error condition; no byte moves |
| Files.FileTables.MakePipe | kern/fs/file.c:629-701 | the two lowest free slots, reading end first, over an empty ring; every failure leaves tables and reservations as they were |
| Files.FileTables.Install | kern/fs/file.c:658-684 | the new pipe's ends go into the reserved slots |
| Files.FileTables.CountEnd | kern/fs/file.c:109-146 | one end of one pipe is counted, every other pipe is untouched |
| Files.FileTables.PutPipe | kern/fs/file.c:177-183 | the last reference frees the pipe |
| Files.FileTables.Fork | kern/fs/fs.c:108-127 | the child's table names the parent's descriptions; every other slot is as before; no byte moves |
| Files.FileTables.CloseFrom | kern/fs/fs.c:74-106 | exactly the slots from the given one on are closed; no byte of a remaining pipe moves |
| Files.FileTables.Acquire | kern/fs/file.c:379-393 | an operation in flight holds one reference of its own, nothing else changes |
| Files.FileTables.Read | kern/fs/file.c:703-729 | the oldest bytes of the ring, at most as many as asked; end of file exactly when the ring is empty and no descriptor can write |
| Files.FileTables.Write | kern/fs/file.c:757-782 | as many bytes as the ring has room for go in at its end; EPIPE exactly when no descriptor can read, full exactly at capacity |
| Files.FileTables.Serve | kern/fs/file.c:109-819 | every operation has the effect its state determines on slots, bytes and outcome |
| Files.FileTables.Drive | kern/fs/file.c:109-819 | over every interleaving the stream law holds for every pipe, and the counts of both ends are the open descriptors |
| Pids.FreePid | kern/process/proc.c:189-221 | with fewer processes than numbers some number is free |
| Pids.PidAllocator.Scan | kern/process/proc.c:200-219 | the restarting scan ends at the first number, going round, that no process holds, with a free interval after it |
| Pids.PidAllocator.GetPid | kern/process/proc.c:189-221 | the first free number after the last one given, going round; the cached interval stays free |
| Pids.PidAllocator.Fork | kern/process/proc.c:592-600 | a fresh number joins the list, refused exactly at the process limit |
| Pids.PidAllocator.Reap | kern/process/proc.c:173-186 | exactly this process leaves the list |
| Pids.PidAllocator.Churn | kern/process/proc.c:162-221 | every run of forks and exits keeps the numbers distinct and the cached interval free |

## Left out

- The file systems (SFS, FAT, VFS), device drivers, ELF loading, signals, futexes, sockets other than the TCP sender, and the user programs other than c4: mostly dispatch and formatting around the parts above.
- Locks and interrupts: methods are the critical sections, run one at a time; lock order and the TLB are not modelled.
- Page-table pages: whether `get_pte` finds memory for one is a parameter of each operation.
- Reclaim inside `alloc_pages`: the retry through `swap_out` is modelled by separate swap-out steps in a run, and the choice of victims by the replacement queue is a parameter.
- Page-frame flags (`PG_reserved`, `PG_property`): the free list and the `property` field carry the same information.
- Frames, slots, device and memory outcomes are parameters: allocation failure, I/O failure and device refusal are chosen freely by the caller.
- CowMemory.Memory.Run: stops before an mprotect that would give a shared page a second writable user, since the property is false from there on.
- CowMemory.Memory.SwapOut: takes the victims as an arbitrary sequence and does not model the locks of other address spaces.
- CowMemory.Memory.AllocPage: does not retry through `swap_out`, which is a separate request in a run.
- CowMemory.Memory.Fork: takes page ranges of whole areas and does not model the failure of `mm_create`.
- AddressSpaces.AddressSpace.UserMemCheck: leaves out the branch for kernel threads, which have no address space and only compare two addresses.
- C4Program.CompiledCall: covers `int` programs with functions, parameters, locals, globals, all statements and operators; pointers, `char`, strings, `sizeof`, `enum`, `&` and system calls are not modelled, and neither are the lexer and an overflow of the machine's stack. Source evaluation takes a bound on call depth and loop rounds; the theorem holds for every bound.
- C4Machine.Execute: words are addressed by one, the stack at and below TOP and the data above it, where the source uses byte addresses; division of the smallest number by -1 has no value.
- PageAlloc.PageAllocator.FreePages: takes exactly a range that one allocation handed out, as its callers do.
- Slob.SlobHeap.SlobAlloc: is for requests without alignment, as all callers make them; pages are taken not to touch the arena, no other CPU takes the fresh page first, and the heap is not followed further once the arena itself has been handed out.
- Monitor.MonitorSafe: semaphores are counters whose `down` blocks at zero; their wait queues are not modelled.
- Dining.DiningProgress: says that somebody can go on, not that everybody eats in the end, which the source does not ensure.
- Stride.StrideQueue.Enqueue: leaves out the time slice, which no property here depends on.
- Stride.RoundKeeps: is for a closed set of tasks; how a woken task's old stride enters the window is not modelled.
- Checksum.Compute: takes at most 65535 bytes, the largest IPv4 datagram, for which the 32-bit sum cannot overflow.
- RunQueues.Scheduler.Pick: leaves the choice among allowed tasks open, since the order is that of the stride queue modelled separately; time slices and ticks are not modelled.
- RunQueues.Drive: each step runs under `proc_lock`, as in the source; who wakes, sleeps or exits when is an arbitrary event.
- Tcp.TcpSender.Drive: sequence numbers do not wrap around, as the comparisons of the source assume; the handshake, the receive queue and the polling of the last descriptor are left out, and ticks are parameters.
- Tcp.TcpSender.StartFin: the window in which the device is sending and the state is already advanced is one step; a refusal restores everything, as in the source.
- Frames.TcpRoundTrip: frames are built as values instead of in a caller's buffer, with the capacity test kept; the window is the number on the wire, where the source takes it in network order and returns it in host order.
- Pipes.Pipe.Read: one round under the lock; the sleep before the next round appears as the outcome of a round that moved nothing.
- Pipes.Pipe.Write: likewise one round, and signal delivery on a broken pipe is not modelled.
- Files.FileTables.Read: covers pipes; regular files, devices and socket pairs are not modelled.
- Files.FileTables.MakePipe: one memory outcome stands for its three allocations, since each failure undoes everything; copying the two numbers to user memory is not modelled.
