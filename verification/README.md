# A model of the kernel's memory, process and console core

This project models the hard part of a small xv6-like i386 kernel in Dafny and proves what it promises.

* **Memory** (`Layout`, `Kalloc`, `PageTables`, `Mapping`, `Unmapping`, `AddressSpaces`, `Lifecycle`, `Runs`, `Bytes`).
  Physical memory is 2^20 frames of 1024 words. The free list is threaded through the first words of the free
  frames, and page directories and page tables live in frames of that same list. A ghost map gives each heap frame
  one owner: the free list, a caller, a directory, the table of one directory entry, or one user page. The main results:
  every run of kernel calls and stores, from boot on, keeps that discipline; `mappages` overrides the translation on exactly its range;
  `deallocuvm` equals a page-by-page scan; `freevm` undoes `setupkvm` and `inituvm`; `setupkvm` builds exactly three
  ranges, and succeeds if and only if they are apart and there are enough frames.
* **Locks and scheduling** (`Spinlock`, `SmpLock`, `Sched`). Nested interrupt disabling as a class and as
  functions; a spin lock under every interleaving of any number of CPUs and any calls, with mutual exclusion and progress; the scheduler, the processes and interrupt
  handlers as one event system in which `ptable.lock` is taken by one thread and released by another.
* **Context switch and traps** (`Machine`, `Coroutines`, `Traps`, `Proc`, `FirstRun`). An interpreter for the
  instructions of `swtch.asm` and `isr.asm`, which faults outside the memory it is given. `swtch` is a coroutine
  switch in every run, a trap is transparent, and the process `initproc_init` leaves behind reaches user mode.
* **System calls** (`Syscall`). Argument fetching through the page tables the first part builds.
* **Console and copying** (`Screen`, `StringLib`). A 25x80 screen refines a log that only grows; `memmove` and its
  exact condition.

`panic` is the result `Panic`, the return value -1 is `Fail` (or `None`). A pointer to a frame is the number of the
frame where only the frame matters, and the word itself where the code stores it or does arithmetic with it. 32-bit
wrap-around is written out (`Wrap`).

Where the code and its evident intent differ, the model follows the code and the exact condition is proved:

* `kinit2` sets `kheap_end` to a virtual address while `kfree` compares a physical one with it: `Kinit2` proves that only
  alignment and the lower bound are checked from then on.
* `dump_freelist` counts one frame too few on a non-empty list: `DumpFreelist`.
* `mappages` with size 0 still maps a page, or the whole address space: `RangeExact`. It stores `pa` unrounded, so
  the flags of the ACPI pages, and with them the user's address space, depend on bits of `acpi`: `AcpiEntry`, `InitSpace`, and the layout of `AcpiOpen`.
* The jump of `deallocuvm` wraps around in the top 4 MB: `JumpTarget`.
* `inituvm` ignores both failures: `Inituvm`, `RoundTrip`, `InitprocInit`.
* The descending loop of `memmove` is one index too high: `MemmoveExact`, `MemmoveFails`.
* `memcmp` compares signed bytes: `MemcmpSign`, `MemcmpFails`.
* The sum in `sysarg_get_ptr` can wrap: `PtrCheck`, `PtrInside`, `PtrCheckWraps`.

## Model

| member | source | states |
|---|---|---|
| Layout.MacroForms | kernel/paging.h:24-48 | PDX, PTX, PTE_FLAGS and the PTE_P test, written with shifts and masks on 32-bit words, equal their arithmetic forms |
| Layout.RoundForms | kernel/paging.h:37-47 | PGROUNDDOWN, PTE_ADDR and PGROUNDUP, written with their masks, give the nearest multiple of 4096 below, and above for all but the last page |
| Layout.PgAddrInverts | kernel/paging.h:24-30 | PGADDR puts together what PDX and PTX take apart |
| Layout.WindowForms | kernel/paging.h:54-55 | V2P and P2V undo each other and are 0x80000000 apart |
| Layout.PgAddrForm | kernel/paging.h:30 | PGADDR, written with its shifts and ors, is its sum modulo 2^32, for every directory index |
| Layout.MakePdeDecodes | kernel/paging.c:40 | the directory entry for a table at P2V of frame f is frame f with exactly P, W and U |
| Layout.MakePteDecodes | kernel/paging.c:70 | the entry (pa or perm or P, bitwise) is present for all pa and perm, and decodes to the frame of pa and the flags perm and P when pa is aligned and perm is a flag set |
| Kalloc.Heap.Kfree | kernel/kalloc.c:75-93 | panics exactly outside the heap check; otherwise pushes the frame on the list, makes every byte behind the link 1, and touches no other frame |
| Kalloc.Heap.Kalloc | kernel/kalloc.c:98-113 | pops the most recently freed frame; returns 0 exactly when the list is empty |
| Kalloc.Heap.Freerange | kernel/kalloc.c:59-66 | pushes each page wholly inside the range exactly once, the highest on top; panics exactly when the last of them lies beyond kheap_end; other frames keep their contents |
| Kalloc.Heap.Kinit1 | kernel/kalloc.c:35-48 | the list is exactly the pages of the range, whatever memory held |
| Kalloc.Heap.Kinit2 | kernel/kalloc.c:50-57 | the pages of the second range go on top; never panics; from then on the upper bound of kfree's check is void |
| Kalloc.Heap.DumpFreelist | kernel/kalloc.c:115-124 | terminates, and counts one less than the frames of a non-empty list |
| Kalloc.LinkAt | kernel/kalloc.c:13-22 | following next from element i of a valid list gives element i+1, and the sentinel exactly at the last |
| Kalloc.HeadOf | kernel/kalloc.c:105-106 | the head pointer is the sentinel exactly when the list is empty, and is never a frame listed twice |
| Kalloc.PushChain | kernel/kalloc.c:88-90 | the two stores of kfree turn the chain of s into the chain of f followed by s |
| Kalloc.PopChain | kernel/kalloc.c:109 | the first word of the first frame is the head of the rest of the list |
| Kalloc.DoubleFree | kernel/kalloc.c:88-90 | on a frame that is on the list already the same stores close a cycle: no list of any length is then the chain from the head to the sentinel |
| Kalloc.PopFree | kernel/kalloc.c:98-113 | after a pop the list still holds every free frame exactly once |
| PageTables.WalkStep | kernel/paging.c:28-29 | a present directory entry leads to the one table that entry owns, with the flags walkpgdir set |
| PageTables.OtherFrames | kernel/paging.c:20-43 | writing outside directories and tables changes no translation of any directory and keeps all links |
| PageTables.AddTable | kernel/paging.c:31-40 | hanging an empty table into an absent entry changes no translation of any directory and keeps the ownership discipline |
| PageTables.PokeLookup | kernel/paging.c:70 | writing one entry of a table changes the translation of exactly one page of one directory |
| PageTables.PokeKernel | kernel/paging.c:70 | a kernel-half entry may take any value without disturbing ownership |
| PageTables.MapUser | kernel/paging.c:70 | a caller's frame mapped at an unmapped user page becomes that page's, and all links hold |
| PageTables.UnmapUser | kernel/paging.c:155-161 | the entry deallocuvm clears owned its frame, and all links hold without it |
| PageTables.Detach | kernel/paging.c:180-187 | a directory without user pages can be taken out without breaking any other |
| Mapping.Walkpgdir | kernel/paging.c:20-43 | finds the table of va, or takes the top free frame for it; null exactly when absent and not allocating or out of frames; no translation of any directory changes |
| Mapping.StoreEntry | kernel/paging.c:70 | the store maps exactly that page of that directory, and a user page takes its frame from the caller |
| Mapping.MapPage | kernel/paging.c:64-70 | one round: -1 exactly without a table and without a frame, "remap" exactly when mapped, neither changing anything; else exactly that page is mapped |
| Mapping.Mappages | kernel/paging.c:55-79 | success if and only if no page of the range is mapped and there are frames for the missing tables; then the translation is the old one overridden on exactly the range; on -1 and on panic exactly a prefix is mapped; exactly the missing tables are paid for |
| Mapping.RangeExact | kernel/paging.c:61-62 | the pages visited are those the block touches if and only if size is not 0; with size 0 and an aligned va it is all of them |
| Mapping.NeededStep | kernel/paging.c:64 | the number of tables needed grows by one exactly at pages whose entry is still absent |
| Mapping.RangeReady | kernel/paging.c:63-77 | after n pages, page n is as mapped as it was at the start, and running out at it means the whole range could not be served |
| Mapping.RangeAdvance | kernel/paging.c:63-77 | one more mapped page extends the override, the tables taken and the owners by exactly that page |
| Unmapping.UnmapPage | kernel/paging.c:156-161 | frees exactly the frame of that page, clears exactly its translation, and cannot panic |
| Unmapping.Deallocuvm | kernel/paging.c:141-165 | terminates and, jumps and all, has the translation, the free list in order, and the owners of a plain page-by-page scan of [PGROUNDUP(newsz), oldsz); returns the new size |
| Unmapping.ScanStep | kernel/paging.c:155-161 | freeing one mapped page extends the scan by that page |
| Unmapping.ScanSkip | kernel/paging.c:153-154 | passing over unmapped pages is scanning them |
| Unmapping.JumpTarget | kernel/paging.c:154 | the jump goes to the last page of the 4 MB; the scan goes on upwards if and only if that is not the top 4 MB, from which it restarts at 0 |
| Unmapping.FreeEntry | kernel/paging.c:181-184 | one round frees the table of that entry if it has one, and keeps the directory, the frames in use and every other translation |
| Unmapping.FreeTables | kernel/paging.c:180-185 | frees every page table of the directory exactly once and nothing else |
| Unmapping.Freevm | kernel/paging.c:169-188 | panics exactly on a null directory; otherwise the free list grows by exactly the user pages, the tables and the directory, in that order, all else keeps its owner, and every other directory translates as before |
| Unmapping.DissolvedAll | kernel/paging.c:175-187 | user pages, tables and the directory together are all that belonged to it |
| AddressSpaces.ApartStep | kernel/paging.c:67-68 | the next range hits "remap" exactly when it overlaps an earlier one |
| AddressSpaces.SlotsStep | kernel/paging.c:211-222 | the tables a range needs are exactly those of its entries no earlier range falls under |
| AddressSpaces.StageStep | kernel/paging.c:211-222 | after each mappages call the directory maps exactly the ranges so far and the free list has paid for exactly its tables |
| AddressSpaces.StageFail | kernel/paging.c:226-228 | when one range cannot be mapped, the ranges overlap or the frames do not suffice |
| AddressSpaces.Undo | kernel/paging.c:226-227 | taking the half-built directory apart gives every frame back to the owner it had |
| AddressSpaces.Setupkvm | kernel/paging.c:191-229 | succeeds if and only if the ranges are apart and the free list has one frame for the directory and one for each entry the ranges fall under; then it maps exactly the three ranges; after a failed mappages no frame is lost |
| AddressSpaces.CopyImage | kernel/paging.c:133 | the frame holds the image followed by zeros, byte by byte, and no translation changes |
| AddressSpaces.Inituvm | kernel/paging.c:119-134 | the exact panics; page 0 is mapped, user-writable, and holds the image then zeros if a frame is left for its table, otherwise the frame is neither mapped nor free; nothing else changes |
| Lifecycle.KernelEntryCases | kernel/paging.c:205-222 | a page is mapped by setupkvm if and only if it touches RAM, the ACPI region or the devices, and none lies below KERNBASE |
| Lifecycle.RamEntry | kernel/paging.c:211 | kernel pointer P2V(p) reaches p, writable, kernel only |
| Lifecycle.DeviceEntry | kernel/paging.c:220-221 | pages 0xFE000 to 0xFEEFF, the IOAPIC's among them, are mapped to themselves, kernel only |
| Lifecycle.KernelMap | kernel/paging.c:205-222 | the whole kernel half in numbers, for an aligned ACPI region: what every page of the address space is mapped to, and that nothing else is |
| Lifecycle.AcpiEntry | kernel/paging.c:217 | the right frames for every acpi; flags exactly P and W if and only if acpi has no other flag bit; user access if and only if acpi has PTE_U |
| Lifecycle.AcpiOpen | kernel/paging.c:217 | a layout the code accepts in which an ACPI page is open to user mode |
| Lifecycle.SelfMapped | kernel/paging.c:29 | every heap frame the kernel reaches through P2V, page tables included, is mapped to itself by the directory it belongs to |
| Lifecycle.UserAccessLookup | kernel/paging.c:35-40 | since directory entries are generous, the table level alone decides user access |
| Lifecycle.InitSpace | kernel/paging.c:119-134 | the user-accessible addresses are exactly [0, PGSIZE) if and only if acpi has PTE_U clear; the bytes there are the image then zeros |
| Lifecycle.RoundTrip | kernel/paging.c:119-229 | setupkvm, inituvm, freevm: every frame is back with its owner, and the free list has the same frames, if and only if a frame was left for the image's page table |
| Lifecycle.RoundTripOwners | kernel/paging.c:169-188 | what freevm takes back is exactly what was taken, unless inituvm left the frame with nobody |
| Runs.Perform | kernel/paging.c:20-229 | one call of kalloc, kfree, setupkvm, walkpgdir, mappages, inituvm, deallocuvm, freevm or process_alloc, or one store to a held frame, a kernel stack or a user page, keeps one owner per frame and the kernel half of every directory; a store changes that word only and no translation, a call writes to no frame in use; the process table, live directories, held frames and stacks change exactly as the call says; frames are lost only when inituvm or mappages runs out |
| Runs.MapFrames | kernel/paging.c:55-79 | mappages of held frames at user pages: exactly those leave the caller's hands, each mapped one is the page of its directory at its place in the range, and the rest is lost; all are mapped if and only if there were frames for the tables |
| Runs.LoadImage | kernel/paging.c:119-134 | inituvm maps the image or loses its frame, the latter if and only if it was the last one and page 0 had no table |
| Runs.SpawnProcess | kernel/proc.c:60-111 | process_alloc adds its frame to the kernel stacks, one for each slot in use and no two the same, and leaves every other owner and translation alone |
| Runs.TargetInUse | kernel/proc.c:82-108 | a store by the holder of a frame, on a process's stack, or through a user translation never reaches a free frame, a directory or a page table |
| Runs.UserMapped | kernel/paging.c:70 | what a user translation leads to is a page of that directory at that place |
| Runs.StoresGo | kernel/proc.c:82-108 | which stores a run may contain and which word each goes to: a user store to the word its address translates to, a stack store to the page at kstack |
| Runs.Isolation | kernel/paging.c:20-79 | a word stored at a user address is read back there in little-endian order, and at no other user address of any address space does a byte change |
| Runs.WorldSelfMapped | kernel/paging.c:29 | in every such world each live directory maps each heap frame, its own tables included, to itself |
| Runs.Run | kernel/paging.c:20-229 | in every reachable state of any sequence of those calls and stores each heap frame has exactly one owner, each live directory has the kernel half of setupkvm and maps the whole heap to itself, and the heap is the same set of frames |
| Runs.Boot | kernel/kernel.c:42-54 | kinit1, setupkvm, kinit2: success if and only if the ranges are apart and the low frames suffice; then every page from the end of the kernel to the end of RAM is in the heap exactly once, with the exact free list |
| Runs.Start | kernel/kernel.c:42-62 | boot and initproc_init together: success if and only if the ranges are apart, the image is below a page and RAM suffices; with a frame to spare the first slot is ready to run and the world has two directories and one stack |
| Lifecycle.NoSharing | kernel/paging.c:141-165 | read off memory: two user translations share a frame only if they are the same page of the same directory; no such frame, table or directory is on the free list |
| Spinlock.PushPop | kernel/spinlock.c:115-117 | a matched pushcli and popcli change nothing that is live |
| Spinlock.Cpu.Pushcli | kernel/spinlock.c:119-127 | the new ncli, intena and IF |
| Spinlock.Cpu.Popcli | kernel/spinlock.c:129-138 | panics exactly with IF on or without a pushcli; otherwise the new ncli and IF |
| Spinlock.Cpu.Holding | kernel/spinlock.c:104-112 | true exactly when this CPU has the lock; never panics |
| Spinlock.Cpu.Acquire | kernel/spinlock.c:24-43 | on one CPU panics exactly when the lock is held, else takes it at the first xchg and nests interrupts once |
| Spinlock.Cpu.Release | kernel/spinlock.c:46-68 | succeeds exactly when the lock is held and the nesting is right; then it is free and interrupts are un-nested once |
| Spinlock.Nesting | kernel/spinlock.c:24-138 | any sequence of pushcli, popcli, acquire and release, in whatever release order, runs without panic if and only if it is balanced; IF is off at every depth above zero and as it began at depth zero |
| SmpLock.InvStep | kernel/spinlock.c:24-112 | every step of every CPU, rightly or wrongly called, keeps: locked exactly while one CPU owns it, lk->cpu names it exactly between its two stores |
| SmpLock.MutualExclusion | kernel/spinlock.c:24-68 | in every interleaving of any number of CPUs, whatever they call, at most one is between its xchg and its clearing store; locked exactly while one is; lk->cpu == c exactly between c's stores to it |
| SmpLock.HoldingTells | kernel/spinlock.c:104-112 | holding answers the truth although it reads two words that others change |
| SmpLock.WrongCalls | kernel/spinlock.c:28-50 | the panics are exactly acquire by the CPU that has the lock and release by one that has not |
| SmpLock.SpinTakes | kernel/spinlock.c:32-33 | an xchg that finds the lock free takes it, one that finds it taken changes nothing |
| SmpLock.AcquireEnds | kernel/spinlock.c:24-43 | a CPU that called acquire while nobody else has the lock is back with it within four of its own steps |
| SmpLock.ReleaseEnds | kernel/spinlock.c:46-68 | a CPU with the lock that called release is back at its fourth step, with the lock free at that moment |
| SmpLock.CpuCalls | kernel/spinlock.c:24-112 | a run may contain every call by every idle CPU |
| Sched.InvStep | kernel/proc.c:166-305 | every event keeps the agreement of locks, ncli, IF, intena, c->proc and process states |
| Sched.HandOff | kernel/proc.c:166-305 | in every state of every run: no panic, none of enter_scheduler's and not "zombie exit"; at each swtch ptable.lock is the only lock held and IF is off; while the lock is free the RUNNING process is exactly c->proc |
| Sched.NoInterruptUnderLock | kernel/spinlock.c:119-138 | a held lock means ncli > 0 and IF off; interrupts arrive only without locks and never nest |
| Sched.FirstTry | kernel/spinlock.c:27-33 | whoever executes acquire in any run finds the lock free, also after an interrupt between readeflags and cli |
| Sched.NestedStep | kernel/proc.c:179-183 | no event changes the IF a thread with locks is to find again, whether it runs, yields, is switched out or comes back |
| Sched.FlagRestored | kernel/proc.c:179-183 | in every run IF after a process gives back its last lock is IF when it began its first acquire, also if it was switched out and in between |
| Sched.NeverStuck | kernel/proc.c:269-305 | in no reachable state is the code that has the CPU stuck: some step of it changes the state |
| Sched.PassOpen | kernel/proc.c:276-281 | sti turns IF on and it is on until the acquire, so every pass of the scheduler accepts interrupts, and no scan begins otherwise |
| Sched.TableStep | kernel/proc.c:75-84 | the process table after every event of every run: INITIAL by process_alloc, UNUSED without a stack, RUNNABLE when published, RUNNING in c->proc when dispatched, the state a process set, and otherwise unchanged |
| Sched.ControlStep | kernel/proc.c:166-305 | who has the CPU, c->proc and IF after each interrupt, return, switch and hand-back; IF is on after every return to user mode and from a handler |
| Sched.ThreadStep | kernel/proc.c:179-203 | a new slot starts from its forged stack, an exit is marked as one, enter_scheduler saves intena and the switch back hands it over |
| Sched.ReleaseStep | kernel/spinlock.c:46-68 | each release in a run frees exactly its lock, and the hand-off exactly ptable.lock |
| Sched.Checks | kernel/proc.c:169-177 | in any state at all, when acquire, release, enter_scheduler and a switch to a thread panic, both directions |
| Sched.HandlerCan | kernel/spinlock.c:119-138 | exactly when an interrupt can arrive and what its handler can do, so that runs leave out none |
| Sched.CodeCan | kernel/proc.c:60-204 | exactly what the scheduler and a process can do in each reachable state |
| Sched.RankStep | kernel/proc.c:276-302 | each step of the scheduler dispatches or comes closer to a RUNNABLE slot, and interrupts do not set it back |
| Sched.DispatchesSoon | kernel/proc.c:276-302 | with a RUNNABLE slot the scheduler dispatches within 69 of its own steps, however many interrupts come between |
| Sched.StaysRunnable | kernel/proc.c:282-291 | only its dispatch ends the wait of a RUNNABLE slot |
| Sched.BoundedWaiting | kernel/proc.c:276-302 | a RUNNABLE slot is picked after at most 63 dispatches of others |
| Sched.PublishedWaits | kernel/proc.c:152-155 | a published slot is RUNNABLE until it is dispatched, after at most 63 others |
| Sched.Approach | kernel/proc.c:282-300 | each step moves the scan no further from the slot, and each dispatch at least one closer |
| Sched.ZombieForever | kernel/proc.c:189-204 | a ZOMBIE stays one, is never dispatched, and never gets the CPU back |
| Machine.SwtchRuns | kernel/swtch.asm:10-29 | executing the thirteen instructions never faults on a ready state and does exactly: old frame saved, its address stored, new frame loaded |
| Coroutines.SwitchStep | kernel/swtch.asm:10-29 | called from one thread, swtch gives the other exactly what its stack holds, writes only the caller's stack and context pointer, and leaves the caller's frame behind |
| Coroutines.OthersSpared | kernel/swtch.asm:10-29 | what swtch writes on one stack does not reach the others or their context pointers |
| Coroutines.InvStep | kernel/swtch.asm:10-29 | arbitrary work on anything but the others' stacks and context pointers, and any switch, keep every suspended frame |
| Coroutines.Coroutine | kernel/proc.c:181-293 | a thread switched out and later resumed, after any alternation of the others, finds its edi, esi, ebx, ebp, esp and return address |
| Traps.TrapEntry | kernel/isr.asm:18-72 | the CPU's pushes, either stub and isr_wrapper call the handler with exactly these words on the stack and the kernel's segments |
| Traps.HandlerView | kernel/isr.asm:18-72 | what the handler finds, in terms of the interrupted state alone: every field of the frame at its offset, its address as argument, cs 0x08, ss 0x10 from user mode, data segments 0x10, IF off exactly through an interrupt gate and every other flag kept, no other word touched |
| Traps.WordsAreFrame | kernel/idt.h:84-89 | those words are a struct interrupt_state that captures the interrupted state |
| Traps.TrapretRuns | kernel/isr.asm:77-92 | trapret loads every register from the frame, touches nothing outside it, and leaves the stack just above it |
| Traps.TrapTransparent | kernel/isr.asm:18-92 | from user or kernel mode, with or without an error code, for any handler that leaves the words of the frame but its eax alone, whatever else it writes: the interrupted state is back, with that eax; es, fs and gs come back as ds |
| Proc.ForgeStack | kernel/proc.c:87-108 | trap frame space, trapret's address and a zeroed context with eip at enter_process, in one held frame and nowhere else; tf and context are the addresses of those two |
| Proc.FillTrapFrame | kernel/proc.c:136-143 | every field of the user trap frame, and nothing below it |
| Proc.ProcessAlloc | kernel/proc.c:60-111 | None exactly without an UNUSED slot or a frame, and then at most a pid is used up and kstack is 0; else the first UNUSED slot becomes INITIAL with the next pid, kstack on the top free frame, tf and context into it, and a forged stack there |
| Proc.BuildSpace | kernel/proc.c:128-131 | setupkvm and inituvm for a process with a stack: the exact condition; the directory joins the others, whose translations do not change, and the stack is not touched |
| Proc.InitprocInit | kernel/proc.c:118-157 | success if and only if there is a slot, the ranges are apart, the image is below a page and frames suffice; then the first slot has every field set (name, pid, context, state, pgdir, kstack, sz, tf), with stack, trap frame, kernel half and image in place, unless the page table's frame was missing, in which case page 0 is unmapped; no other directory changes |
| Proc.StackKept | kernel/proc.c:125-131 | building the address space leaves the forged stack alone |
| FirstRun.ForgedSuspended | kernel/proc.c:100-108 | the forged stack is that of a thread that called swtch with zeroed registers |
| FirstRun.SwitchIn | kernel/proc.c:293 | the scheduler's swtch to p->context lands at enter_process and does not touch the new stack |
| FirstRun.EnterUser | kernel/isr.asm:77-92 | the ret of enter_process and trapret go to user mode through the forged words |
| FirstRun.FirstDispatch | kernel/proc.c:47-157 | for a process as initproc_init leaves it, from the scheduler's swtch on: enter_process, then trapret, then user mode at eip 0, cs 0x1B, ss 0x23, esp 0x1000, IF set, registers 0; the stack is drained exactly to its top and no word outside it is touched |
| Syscall.InitprocSpace | kernel/proc.c:131-134 | the first process can access [0, p->sz), where it finds its image, whatever acpi is, and nothing else if and only if acpi has PTE_U clear |
| Syscall.ArgAddrWraps | kernel/syscall.c:38 | the address of argument n for any n and esp, modulo 2^32 |
| Syscall.Fetchint | kernel/syscall.c:41-49 | succeeds exactly when all four bytes lie in the process, which may read each of them, and gives their little-endian word |
| Syscall.SysargGetPtr | kernel/syscall.c:60-69 | succeeds exactly when the pointer lies in the process and the block ends in it or beyond the address space |
| Syscall.PtrCheck | kernel/syscall.c:65 | an accepted block lies in the process if and only if its end does not wrap |
| Syscall.PtrInside | kernel/syscall.c:60-69 | what sysarg_get_ptr accepts lies in the process if and only if its end does not wrap |
| Syscall.PtrCheckWraps | kernel/syscall.c:60-69 | an argument sysarg_get_ptr accepts for a block that does not lie in the process |
| Syscall.Fetchstr | kernel/syscall.c:74-87 | the distance to the first nul before sz, or -1 exactly when there is none or addr is outside; every byte read is the process's own |
| Syscall.SysargGetStr | kernel/syscall.c:93-99 | the string at the argument's address, with both failures |
| Syscall.SysHello | kernel/syshello.c:4-21 | 0 exactly when the int, the eight bytes and the string are all there, else 0xFFFFFFFF |
| Syscall.SyscallHandler | kernel/syscall.c:18-28 | exits exactly for number 2 with a readable status; eax 0 exactly for number 1 with good arguments; otherwise 0xFFFFFFFF |
| Screen.Console.GetCursor | kernel/drivers/screen.c:30-46 | twice the character offset in the two registers |
| Screen.Console.SetCursor | kernel/drivers/screen.c:48-56 | get_cursor gives back the offset, rounded down to even |
| Screen.Console.HandleScrolling | kernel/drivers/screen.c:59-86 | past the screen all rows move up, the last is blank, and the offset is one row back; else nothing |
| Screen.Console.PrintChar | kernel/drivers/screen.c:89-126 | on the bytes: character then attribute (7 for 0) at the offset, cursor at the next cell, or at the next row after byte 10, which stores nothing; past the end all rows up by 160 bytes, zeros in the last and the cursor at its start; nothing else; and so the screen shows the last 25 lines of the log after Write |
| Screen.Console.PrintText | kernel/drivers/screen.c:158-161 | the same for every text |
| Screen.AnyScreen | kernel/drivers/screen.c:20 | every screen contents with the cursor inside shows some log, so the above holds from any start |
| Screen.WriteShown | kernel/drivers/screen.c:109-125 | one character on the raw bytes is one Write on the log |
| Screen.ScrollShown | kernel/drivers/screen.c:66-84 | scrolling the bytes is appending a blank line |
| Screen.LogGrows | kernel/drivers/screen.c:58-86 | a finished line is never changed again by any later text |
| Screen.TextAppears | kernel/drivers/screen.c:158-161 | a text that fits on its line stands there from left to right, each character with its attribute |
| Screen.DigitsValue | kernel/drivers/screen.c:177-193 | the numeral, in the characters 0 to 9 and a to f, reads back as the number and has no leading zero |
| Screen.DigitsLength | kernel/drivers/screen.c:182 | a number below base^n has at most n digits |
| Screen.IntTextMeans | kernel/drivers/screen.c:179-197 | the text is "-" and the absolute value, or the value, modulo 2^32 when unsigned |
| Screen.FormatInt | kernel/drivers/screen.c:179-197 | buf reversed is the signed or unsigned numeral for every 32-bit value, the smallest included, and 16 bytes suffice |
| Screen.Printint | kernel/drivers/screen.c:179-201 | that numeral appears at the cursor |
| StringLib.Memset | kernel/lib/string.c:14-21 | byte by byte: exactly the count bytes at dst become c |
| StringLib.Memcpy | kernel/lib/string.c:28-36 | a copy as if through a buffer whenever dst is not strictly inside the source |
| StringLib.CopyDown | kernel/lib/string.c:52-55 | the descending loop over any index range is a copy of that range when src <= dst |
| StringLib.AscendsMeans | kernel/lib/string.c:49 | the one unsigned test sends exactly the dst outside [src, src+count) to the ascending copy |
| StringLib.Memmove | kernel/lib/string.c:44-58 | outside: a copy; inside: bytes 1..count are moved and byte 0 is not |
| StringLib.MemmoveExact | kernel/lib/string.c:38-58 | as if through a buffer for all contents if and only if dst is outside the source or equal to src |
| StringLib.MoveMisses | kernel/lib/string.c:52-55 | inside, byte 0 is wrong whenever the two first bytes differ |
| StringLib.MemmoveFails | kernel/lib/string.c:52-55 | "ab" moved up by one |
| StringLib.CopyDownFromLast | kernel/lib/string.c:38-43 | with indices count-1..0 the loop meets the documented contract |
| StringLib.Memcmp | kernel/lib/string.c:65-78 | 0 exactly for equal regions, else the signed difference at the first unequal byte |
| StringLib.MemcmpSign | kernel/lib/string.c:60-78 | the sign of the result is the documented unsigned one if and only if the first unequal bytes are on the same side of 128 |
| StringLib.MemcmpFails | kernel/lib/string.c:60-78 | comparing 0x80 with 0x01 gives a negative result |
| StringLib.Strnlen | kernel/lib/string.c:97-106 | the distance to the first nul, at most count |
| StringLib.Strncpy | kernel/lib/string.c:131-139 | at most count characters, padded with nuls to count, always terminated, nothing else written |

## Left out

- Boot sector and entry assembly, `ltr`/`cr3`/`lidt`, GDT and IDT packing: mode switches and single-expression bit packing.
- Drivers (PIC, PIT, UART, IDE, keyboard, IOAPIC) and serial output: port pokes and tables. The cursor registers are two bytes.
- E820 and ACPI parsing: the end of RAM and the ACPI region are inputs (`Platform`), non-empty and inside the 2 GB window.
- `cprintf` and `printptr` loop over a format string and call `printint` and `print_char`, which are modelled; `print_at` and `clear_screen` call `print_char` in a loop.
- `paging_get_paddr` and the page fault handler only report; `getcallerpcs` follows saved frame pointers for debugging; `strlen`, `strncmp` and `strncat` are one loop each and unused by the parts modelled.
- Memory barriers, TLB invalidation and the stack canary: `xchg`, `cli`, `sti` and stores are atomic steps in program order.
- The locks inside `kalloc`, `kfree` and `process_alloc` are not taken in the methods of those names; the lock protocol is modelled on its own.
- Processes are never woken or reaped: the kernel has no such code. Slots may be allocated and published by any process.
- Kalloc.Heap.Kfree: a frame already on the free list is the caller's error; `DoubleFree` says what the code would do.
- Kalloc.Heap.Freerange: the range ends below 0xFFFFF000, because past it the loop's pointer overflows, which C leaves undefined.
- Kalloc.Heap.Kinit1: the same bound.
- Kalloc.Heap.Kinit2: the same bound.
- Unmapping.Deallocuvm: oldsz is at most KERNBASE, as in all callers; above it the routine would free frames that kernel entries only borrow.
- Mapping.Mappages: a frame mapped at a user page must be one the caller holds, at an aligned address, which is what keeps pages unshared; kernel pages may be mapped to anything.
- Mapping.MapPage: the same.
- AddressSpaces.Setupkvm: RAM and the ACPI region are non-empty and inside the 2 GB window, as for all of `Platform`.
- Runs.Run: a call that names a dead directory or a frame not held is a caller's error and is skipped; stores are of whole words.
- Runs.Boot: RAM ends at 4 MB or above, since main frees the pages up to there, and below the last page of the 2 GB window, for Freerange's bound.
- SmpLock.MutualExclusion: `mycpu()` returns the executing CPU; in the code there is only CPU 0.
- Sched.HandOff: a process may give up the CPU in any state but RUNNING, of which the kernel uses ZOMBIE only, and does so holding exactly `ptable.lock`, as `enter_scheduler` asks of its callers; handlers take locks in any order but give all back.
- Spinlock.Cpu.Acquire: one CPU; the spinning is in `SmpLock`.
- Traps.TrapTransparent: the direction flag is not modelled, and eflags is kept as a whole.
- FirstRun.FirstDispatch: `enter_process` is any code that comes to its ret with the stack from the stack pointer up as it found it.
- StringLib.Strncpy: source and destination are apart, as `memcpy`, which it calls, assumes.
- Screen.Console.PrintChar: a given (col, row) lies on the screen, as nothing in the code checks it.
