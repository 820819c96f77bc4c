# Verification of MOS

A Dafny model of the parts of the MOS teaching kernel and its user-level file server whose
correctness depends on every interleaving, every run or every input, with machine-checked
proofs. Check everything with `dafny verify dfyconfig.toml`.

Each part has a value-level model (functions on a state, an invariant, lemmas over single
steps and whole runs). Where the C code changes things in place, a class or method written in
the same steps is proved equal to that model, so that the theorems apply to it.

| part | modules | main results |
|---|---|---|
| virtual memory | `Mmu`, `VmState`, `VmOps`, `VmEnv`, `VmRun`, `VmLimits`, `VmGlobal`, `VmConserve`, `Kernel` | in every run from boot each frame's `pp_ref` is the number of places naming it, no free frame is mapped, no unused frame or ASID is lost but for one stated case, page tables are never aliased, the TLB agrees with the page tables of the env that owns the ASID, and under the hardware's own matching if and only if the global pairs agree; each system call changes exactly one page of the flat address map or none; the self-map shows the page tables |
| copy-on-write fork | `Fork` | any interleaving of stores, faults, forks, allocations, unmappings and exits of any number of envs refines a machine that copies pages eagerly and shares LIBRARY pages |
| scheduler and IPC | `Sched`, `SchedFair`, `Queue`, `SchedLinks`, `Scheduler` | in every run on the list pointers themselves an env is queued once iff runnable; destroying any env keeps that under an exact condition; sends wake one blocked receiver and mail is kept; a bound on waiting; exact time shares; the intrusive queue macros refine sequences |
| pipes | `PipeEof`, `PipeStream`, `PipeJoin` | end-of-file is never reported falsely under preemption, and is final; it comes with everything read under an exact condition; what is read is a prefix of what is written, however often the counters wrap |
| file system | `FsBlocks`, `Bitmap`, `FileServer`, `FsPath`, `Fsformat`, `ImageBuilder`, `ImagePaths` | blocks are never shared, lost or read while free; truncation frees exactly the right blocks; path walking is a fold of directory lookups, creation adds one file, removal takes one away; what the image builder writes is what the server finds by path and reads |
| arithmetic cores | `Elf`, `Print` | a segment is loaded right exactly under a stated condition; printed numbers read back |

Where the code does not meet the expected property, the code is modelled as it is, the exact
condition is proved, and an input or a run that shows the failure is given:

- `env_alloc` leaves the new directory frame counted but named from nowhere if and only if the
  ASIDs have run out (`VmEnv.EnvAllocKeeps`); a run from boot gets there (`VmLimits.AsidsRunOut`).
- a page fault on a self-map page past the directory's own breaks the reference counts, unless no
  frame is free (`VmRun.PassiveKeeps`, `VmRun.RefillKeeps`, `VmRun.VptAllocAboveUlimLeaks`), and
  the frame outlives the env for good (`VmLimits.LeakOutlivesEnv`).
- `page_insert` breaks the counts if and only if the 16-bit `pp_ref` overflows
  (`VmRun.InsertExact`); a run from boot gets there (`VmLimits.CountsRunOver`).
- a machine with fewer than three free frames after `page_init` boots without its template, since
  `map_segment` ignores errors (`Kernel.Memory.EnvInit`).
- a new page loses its frame for good if and only if it was the last free one and the page table was
  missing (`VmConserve.ConserveExact`, `VmConserve.AddPageKept`); a run from boot gets there
  (`VmConserve.LastFrameLost`).
- `fork` gives the child no page below UTEMP, where `sys_mem_map` refuses every address
  (`Fork.ForkIsComplete`), and a copy-on-write fault on such a page ends with the page as it was
  (`Fork.FaultEnds`).
- `duppage` and `cow_entry` write `perm & !PTE_D` and `perm & !PTE_COW`, where C's `!` gives 0:
  for every input only the bits OR-ed in afterwards survive (`Fork.ComputedPerms`).
- a one-call duplication in `duppage` keeps private memory private if and only if the page is not a
  private writable one at that moment (`Fork.OneCallExact`); a fault between the read of the
  permission and the call makes it one (`Fork.StalePermissionLeaks`).
- making a stopped env runnable by `sys_set_env_status` keeps the mailbox discipline if and only if
  it is not blocked in a receive (`Sched.StartKeeps`); otherwise the next send queues it twice
  (`Sched.StartedReceiverIsQueuedTwice`).
- `env_free` takes every env off the scheduling list, also one that is not on it. Destroying an env
  panics if and only if its `tqe_prev` is null or the last runnable env destroys itself; otherwise the
  scheduler stays sound if and only if the env is runnable, or its removal writes nothing new into
  the list and it is not blocked in a receive (`SchedLinks.DestroyExact`, `Queue.StaleUnlinkExact`).
  The error path of `spawn` meets both failures, in runs from boot: with a slot that was never queued
  the kernel panics (`SchedLinks.SpawnErrorPanics`), with a reused one an env that was queued since is
  lost (`SchedLinks.SpawnErrorLosesEnv`). After a receiver is destroyed the next child starts with an
  open mailbox (`SchedLinks.DestroyedReceiverReceives`).
- a send returns an error although it has woken the receiver if and only if its page is not mapped
  or the receiver's page table cannot be made (`Sched.SendKeeps`, `Sched.SendFailsAfterWaking`).
- the reader's emptiness test of a pipe is wrong if and only if the write counter has wrapped once
  more than the read counter (`PipeStream.EmptyTestExact`); a run gets there
  (`PipeStream.CounterWrapStalls`) and from there no byte is ever read again
  (`PipeStream.StallIsForever`).
- a `pipe_read` that returns 0 leaves bytes behind if and only if one was written after its test for
  an empty ring, or the counters have wrapped apart (`PipeJoin.ZeroIsCompleteExact`); a run gets there
  (`PipeJoin.FirstZeroTooEarly`). A second 0 is right unless the counters have wrapped apart
  (`PipeJoin.SecondZeroIsComplete`).
- a TLB pair with the global bit in both halves, which user code may ask for, is used for every ASID:
  the TLB is coherent if and only if every live env maps the private pages of such pairs alike
  (`VmGlobal.CoherentExact`); a run from boot serves one env a page of another
  (`VmGlobal.GlobalPairLeaks`).
- an index block allocated in a block that is still cached keeps its old contents, and blocks
  are shared, if and only if those contents are not zero (`FsBlocks.WalkKeeps`,
  `FsBlocks.MapBlockKeeps`, `FsBlocks.StaleIndexExample`).
- a directory block allocated in a block that is still cached keeps its old records: the directory
  gains exactly the new name, with an empty file, if and only if they read as unused
  (`FsPath.CreateOverExact`, `FsPath.StaleDirectoryExample`), and the disk stays sound if and only if
  the pointers in the new file's record are zeros (`FsBlocks.CreateExact`).
- `file_truncate` loses blocks if and only if some hang behind the index block past the old size
  (`FsBlocks.TruncateExact`, `FsBlocks.LostTailExample`).
- a failed `file_create` changes the directory if and only if the directory is full and no block can
  be had; it reports "not found" (`FsPath.FailedCreateChanges`, `FsPath.FullDiskExample`).
- `elf_load_seg` maps the first page a second time, over the bytes it has just copied, if and only if
  the segment is unaligned, its file part ends in its first page and its memory part is longer
  (`Elf.LoadExact`, `Elf.IrregularLosesBytes`).

## Model

| member | source | states |
|---|---|---|
| Mmu.LayoutSlots | include/mmu.h:132-147 | below ULIM, a page is a user page iff its directory slot is below that of UTOP, a self-map page iff its slot is that of UVPT, and VPN = 1024 PDX + PTX |
| Mmu.Entry | kern/pmap.c:264 | the word page_insert writes is valid and cacheable, names the frame, and has exactly the other bits of the permission |
| Mmu.Constants | include/mmu.h:48-147 | the layout and the flag bits as numbers |
| Mmu.WordDecodes | include/mmu.h:17-18 | PTE_ADDR and PTE_FLAGS split a packed word into the frame and the flags it was made of |
| Mmu.ShiftIsDivision | kern/tlbex.c:63-65 | the EntryLo of a page-table word is that word shifted right by 6 |
| VmState.SoleOwner | kern/pmap.c:181-216 | under the invariant no directory or page table is named from two places |
| VmState.ZeroIsUnmapped | kern/pmap.c:301-308 | a frame whose count is zero is named from nowhere |
| VmOps.LeafStep | kern/pmap.c:230-266 | writing one page-table slot with its TLB pair dropped and the counts adjusted keeps the invariant and changes exactly one page of the flat map |
| VmOps.InvalidateKeeps | kern/tlbex.c:13-15 | dropping a TLB pair changes no translation and no reference |
| VmOps.RemoveKeeps | kern/pmap.c:313-329 | page_remove deletes exactly one page, changes no other reference or count, and frees at most that page's frame |
| VmOps.CreateKeeps | kern/pmap.c:181-216 | pgdir_walk with create links a frame that was free, with count 1, and changes no translation; it fails exactly when no frame is free, changing nothing |
| VmOps.InsertClears | kern/pmap.c:237-252 | the part of page_insert before the new mapping removes exactly the old page and leaves no stale TLB pair |
| VmOps.InsertSame | kern/pmap.c:237-247 | page_insert of the frame already mapped there changes only the permission |
| VmOps.InsertKeeps | kern/pmap.c:230-266 | page_insert, where the 16-bit count does not overflow, keeps the invariant; on success exactly one page of the flat map changes, to the frame with V, the cache bits and exactly the permission given, on failure none changes; it fails iff the table is missing and no frame is free |
| VmEnv.FirstClear | kern/env.c:34-45 | asid_alloc finds the lowest free ASID, or none is free |
| VmEnv.EnvAllocKeeps | kern/env.c:193-283 | env setup keeps the invariant iff it does not run out of ASIDs after taking the directory; on success the env has an empty user half and the lowest free ASID, and other envs are unchanged; failure for memory changes nothing |
| VmEnv.EnvAllocTlb | kern/env.c:34-60 | handing out an ASID keeps live ASIDs distinct and the TLB coherent: no pair of a former owner is exposed |
| VmEnv.FreedAsidIsClean | kern/env.c:443-482 | a valid TLB half whose ASID no live env has is never a private user mapping |
| VmEnv.ClearTableKeeps | kern/env.c:459-465 | the inner loop of env_free unmaps exactly the pages of one table |
| VmEnv.UnlinkKeeps | kern/env.c:466-470 | unlinking an emptied table drops that one link, frees its frame and leaves the TLB coherent, self-map included |
| VmEnv.DropTableKeeps | kern/env.c:452-471 | one turn of env_free's outer loop removes one table and its pages and touches no other env |
| VmEnv.ClearDirectoryKeeps | kern/env.c:451-471 | after the loop of env_free no user table is left and other envs are untouched |
| VmEnv.DirectoryGone | kern/env.c:472-479 | giving back directory, ASID and self-map TLB entry removes exactly the env's own references |
| VmEnv.EnvFreeKeeps | kern/env.c:443-482 | env_free removes every reference of that env and of no other, frees every frame whose last reference that was and the ASID, keeps all other translations and the whole invariant |
| VmRun.PageAllocKeeps | kern/pmap.c:132-148 | page_alloc returns a zeroed, unmapped frame off the free list and changes nothing else |
| VmRun.MemAllocKeeps | kern/syscall_all.c:161-179 | sys_mem_alloc maps one new page with the permission given, or changes no translation; it refuses exactly the addresses outside UTEMP to UTOP and fails exactly when frames for the page and its table are missing |
| VmRun.MemMapKeeps | kern/syscall_all.c:195-221 | sys_mem_map makes exactly one page name the source's frame with exactly the permission given, or changes no translation; when it succeeds, when it refuses, and that it keeps the invariant if and only if that frame's count does not overflow |
| VmRun.ShareKeeps | kern/syscall_all.c:439-450 | the page transfer at the end of sys_mem_map, sys_ipc_try_send and sys_send_return_value, to any user address (0 included): exactly one page changes, and the invariant is kept iff the count does not overflow |
| VmRun.AddPageKeeps | kern/env.c:302-324 | mapping a new page at any user address, as load_icode_mapper does, keeps the invariant and changes exactly that page or none |
| VmRun.MemUnmapKeeps | kern/syscall_all.c:233-247 | sys_mem_unmap removes exactly one page, or refuses an address outside UTEMP to UTOP and changes nothing |
| VmRun.VptAllocIsCreate | kern/tlbex.c:18-43 | a passive allocation at a self-map page is the creation of the page table it shows |
| VmRun.VptAllocAboveUlimLeaks | kern/tlbex.c:18-43 | a passive allocation past the self-map's own page breaks the counts: its frame has count 1, is off the free list and is named by no place |
| VmLimits.LeakOutlivesEnv | kern/env.c:443-482 | after env_free has torn down the whole address space that frame still has count 1, is not free and is named from nowhere |
| VmLimits.AsidsRunOut | kern/env.c:239-283 | a run from boot after which env_alloc finds no ASID and leaves a counted frame that nothing names |
| VmLimits.CountsRunOver | kern/pmap.c:230-266 | a run from boot that maps one frame 65535 times; the next sys_mem_map succeeds and leaves the mapped frame with count 0 |
| VmGlobal.CoherentExact | kern/tlb_asm.S:31-52 | with pairs matched by ASID or by the global bit of both halves, the TLB shows every live env its own page tables if and only if every private page in a global pair is mapped by the same word in all of them |
| VmGlobal.TemplateShows | kern/env.c:193-216 | pages of the shared template are the same word in every env, so they may be global |
| VmGlobal.NoGlobalsCoherent | kern/tlbex.c:48-66 | with no user page mapped global, whatever the hardware may use for a live env is that env's current word |
| VmGlobal.RunCoherent | kern/syscall_all.c:161-221 | that holds in every state of every run from boot in which no caller passes the global bit |
| VmGlobal.GlobalPairLeaks | kern/syscall_all.c:161-179 | a run from boot in which one env maps both pages of a pair global and touches one; the TLB then serves the page to an env that does not map it |
| VmConserve.KeptExact | kern/pmap.c:93-117 | where nothing is lost, a frame is on the free list exactly when nothing names it, and an ASID is free exactly when no live env has it |
| VmConserve.InsertKept | kern/pmap.c:230-266 | page_insert loses no frame but perhaps the one handed in, when it fails |
| VmConserve.AddPageKept | kern/syscall_all.c:161-179 | a new page loses its frame if and only if it was the last free one and the table was missing |
| VmConserve.EnvFreeKept | kern/env.c:443-482 | env_free gives back every frame that only the env used, its tables, its directory and its ASID |
| VmConserve.ConserveExact | kern/env.c:193-482 | every memory call, refill, env creation and destruction keeps everything unused available, if and only if it does not fail half way on the last frame |
| VmConserve.RunConserves | kern/env.c:193-482 | in every run without such a step, free means unused and unused means free, in every state |
| VmConserve.LastFrameLost | kern/syscall_all.c:161-179 | a run from boot after which sys_mem_alloc fails and the last free frame is counted nowhere and on no list |
| VmRun.PassiveKeeps | kern/tlbex.c:18-43 | passive_alloc at a missing page makes the walk succeed, and for a user page maps exactly one new writable page; it panics exactly below UTEMP, in the guard page, in the kernel's windows, and when frames are missing; it keeps the invariant if and only if the page is not past the self-map's own, or no frame is free |
| VmRun.RefillKeeps | kern/tlbex.c:48-66 | a TLB refill keeps coherence under exactly the same condition, maps a page only where none was, and leaves both halves around the faulting page valid exactly where a page is mapped, as that page's word shifted by 6 |
| VmRun.FillLoads | kern/tlb_asm.S:31-52 | tlbwr loads both halves of the pair, whichever page of it faulted |
| VmRun.WritableHalf | kern/tlbex.c:48-66 | a writable TLB half is always a writable user page of the live env with that ASID |
| VmRun.StoreKeeps | include/mmu.h:58-65 | a user store through the TLB writes the one word of the frame if the half is valid and writable, and never changes a page table, a directory or a kernel frame |
| VmRun.StepKeeps | kern/syscall_all.c:161-247 | every memory system call, IPC page transfer, loaded page, refill, env creation, destruction and user store keeps the whole invariant, within the limits listed below |
| VmRun.BootedInv | kern/env.c:179-188 | the state that `Kernel.Memory.EnvInit` establishes after page_init satisfies the invariant |
| VmRun.BootExists | kern/env.c:179-188 | such a state exists for every number of free frames and envs |
| VmRun.RunKeeps | kern/env.c:443-482 | the invariant holds in every state of every run from boot |
| VmRun.RunSafety | kern/pmap.c:132-329 | in every reachable state: pp_ref is exact, free frames are unmapped, live ASIDs are distinct, valid TLB halves are current page-table words |
| VmRun.TlbCoherent | kern/tlbex.c:48-66 | a valid TLB half tagged with a live env's ASID is that env's walk result shifted by 6 |
| VmRun.VptIsWalk | kern/env.c:214-216 | for every address, reading UVPT + 4 VPN(va) lands on the very word pgdir_walk finds, or neither exists |
| VmRun.VpdIsDirectory | user/include/lib.h:11-12 | vpd[i] lands on entry i of the env's own directory |
| VmRun.PageRefCounts | user/lib/pageref.c:14-30 | pageref of a user address is the number of user pages of all envs that share its frame, or 0 if unmapped |
| VmRun.InsertWraps | kern/pmap.c:230-266 | mapping a frame that has 65535 references once more breaks the counts |
| VmRun.InsertExact | kern/pmap.c:230-266 | for any reference count: page_insert keeps the invariant if and only if it fails or the count does not overflow |
| Kernel.Memory.constructor | kern/pmap.c:93-117 | page_init: frames below the boundary have count 1 and are the boot frames, the others are free, each once, highest first; this is what EnvInit starts from |
| Kernel.Memory.InsertNew | kern/pmap.c:230-266 | page_insert in a given directory at a page that is not mapped: one new word, one reference more, one new table if needed, or nothing on failure |
| Kernel.Memory.MapSegment | kern/env.c:69-85 | map_segment maps the stretch of frames in one new table of the template, or nothing if no frame is free |
| Kernel.Memory.EnvInit | kern/env.c:179-188 | the end of env_init: it stops iff no frame is free, and otherwise the machine is booted if and only if three were; then UPAGES shows the page array and UENVS the env array, read-only and nothing else |
| Kernel.Boot | kern/env.c:155-188 | page_init and env_init together establish the invariant of every run, with both windows as promised and every other frame free |
| Kernel.Memory.Alloc | kern/pmap.c:132-148 | the statements of page_alloc compute the allocation of which PageAllocKeeps holds: a zeroed frame nobody names, or none if the list is empty |
| Kernel.Memory.Decref | kern/pmap.c:301-308 | the statements of page_decref and page_free: a frame goes back to the list exactly when its last reference goes, the step the exact-count invariant counts on |
| Kernel.Memory.Invalidate | kern/tlbex.c:13-15 | tlb_invalidate drops exactly the pair of that page and ASID, for which InvalidateKeeps holds |
| Kernel.Memory.PgdirWalk | kern/pmap.c:181-216 | pgdir_walk returns the existing table, none, or the newly created one |
| Kernel.Memory.Lookup | kern/pmap.c:274-294 | page_lookup returns the flat map's word and changes nothing |
| Kernel.Memory.Remove | kern/pmap.c:313-329 | the statements of page_remove keep the invariant and delete exactly one page of the flat map |
| Kernel.Memory.InsertSteps | kern/pmap.c:230-266 | the statements of page_insert, in their order, compute the insertion of which InsertKeeps holds, for any permission and any reference count |
| Kernel.Memory.MapSlot | kern/pmap.c:253-265 | the last part of page_insert: the table is created if needed and the word written |
| Kernel.Memory.Insert | kern/pmap.c:230-266 | page_insert keeps the invariant iff it fails or the count does not overflow; exactly one page of the flat map changes on success, to the frame with exactly the permission given, none on failure |
| Kernel.Memory.MemAlloc | kern/syscall_all.c:161-179 | the statements of sys_mem_alloc, error cases included, compute the call of which MemAllocKeeps holds |
| Kernel.Memory.MemMap | kern/syscall_all.c:195-221 | the statements of sys_mem_map, error cases included, compute the call of which MemMapKeeps holds |
| Kernel.Memory.MemUnmap | kern/syscall_all.c:233-247 | the statements of sys_mem_unmap, error cases included, compute the call of which MemUnmapKeeps holds |
| Kernel.Memory.PassiveMap | kern/tlbex.c:18-43 | the statements of passive_alloc, panics included, compute the call of which PassiveKeeps holds |
| Kernel.Memory.TlbRefill | kern/tlbex.c:48-66 | the refill loop ends after at most one passive allocation, for every address; afterwards both halves around the page are what the page table says |
| Kernel.Memory.AsidAlloc | kern/env.c:34-45 | the scan marks the lowest free ASID |
| Kernel.Memory.Setup | kern/env.c:193-283 | the statements of env_setup_vm and asid_alloc; the invariant survives iff the ASIDs have not run out |
| Kernel.Memory.DropSlot | kern/env.c:451-471 | one turn of env_free's outer loop leaves the same teardown to be done from the next slot on |
| Kernel.Memory.EmptyTable | kern/env.c:459-465 | env_free's inner loop empties the table, keeping the invariant at every page on the way |
| Kernel.Memory.Free | kern/env.c:443-482 | the two nested loops and the tail of env_free compute the teardown of which EnvFreeKeeps holds; the invariant is kept |
| Fork.ComputedPerms | user/lib/fork.c:28-92 | the permission words duppage and cow_entry compute keep no other bit, whatever the input |
| Fork.StoreSeen | user/lib/fork.c:71-94 | a store through a private page is visible through no page of a running env |
| Fork.StepRefines | user/lib/fork.c:16-148 | every single step of stores, fault handling, fork, page allocation, unmapping and exit keeps the invariant and the agreement with the eager machine |
| Fork.RunRefines | user/lib/fork.c:16-148 | agreement holds in every state of every run |
| Fork.ForkLooksEager | user/lib/fork.c:16-148 | in every state of every run, every page of every running env reads as if fork had copied it, while other envs allocate, unmap, fork and exit |
| Fork.ForkIsComplete | user/lib/fork.c:125-146 | when the child becomes runnable it maps exactly those pages of its parent that lie from UTEMP up to USTACKTOP |
| Fork.FaultEnds | user/lib/fork.c:16-48 | a fault on a copy-on-write page ends with the page writable, private and in its place, or below UTEMP with everything as it was |
| Fork.StalePermissionLeaks | user/lib/fork.c:16-94 | a run in which a copy-on-write page faults between the read of its permission and its duplication: the page is private, and what the parent then stores is read by the child |
| Fork.OneCallExact | user/lib/fork.c:85-88 | the one-call branch of duppage leaves private writable frames unshared if and only if the page is not a private writable one at that moment |
| Fork.AboutToDupExists | user/lib/fork.c:71-78 | a state in which duppage has read the permission of a copy-on-write page |
| Fork.DupPage | user/lib/fork.c:71-94 | duppage in its one-call and two-call form gives the child the page, copy-on-write on both sides if it is private and writable and as it is otherwise; below UTEMP it gives nothing |
| Fork.ForkAlone | user/lib/fork.c:107-148 | fork's loop, run alone, leaves the child with exactly the parent's pages from UTEMP up to USTACKTOP, their bytes and the right permissions, and the parent with its own pages |
| Sched.ScheduleKeeps | kern/sched.c:17-51 | schedule dispatches a runnable env at the head of the queue and panics exactly on an empty queue; a yield moves on to another env if there is one |
| Sched.BlockKeeps | kern/syscall_all.c:364-392 | receiving blocks exactly the caller and dispatches another env |
| Sched.DestroyKeeps | kern/env.c:487-497 | destroying a runnable env frees exactly it, reschedules if it was current, and keeps the invariant; it panics exactly when the last runnable env destroys itself |
| Sched.ExoforkKeeps | kern/syscall_all.c:263-280 | a new child is not runnable, has a new id, its parent's id and its parent's priority, and no other env changes; each failure (no env, no memory, no ASID) has its exact cause and changes nothing |
| Sched.StartKeeps | kern/syscall_all.c:294-317 | starting a stopped env makes it runnable at the tail of the queue, and keeps the mailbox discipline iff the env waits for nothing |
| Sched.StopKeeps | kern/syscall_all.c:294-317 | stopping a runnable env takes it off the queue, and keeps the invariant iff it is not the current one |
| Sched.SendKeeps | kern/syscall_all.c:409-497 | a send changes nothing or wakes exactly one blocked receiver, with the value and the sender's id; sys_send_return_value leaves the value as the return value too, sys_ipc_try_send does not touch it; every result has its exact condition, and success means that it wakes one and its page, if any, is mapped |
| Sched.SendFailsAfterWaking | kern/syscall_all.c:432-447 | a send that returns an error while its receiver runs with the value |
| Sched.StartedReceiverIsQueuedTwice | kern/syscall_all.c:294-317 | a receiver started by hand is queued twice by the next send |
| Sched.StaleIsRejected | kern/env.c:114-146 | envid2env rejects every stale id |
| Sched.FindExact | kern/env.c:114-146 | envid2env finds the caller for id 0, and otherwise exactly the env in use with that id, which with permission checked must be the caller or its child |
| Sched.IdLayout | kern/env.c:96-99 | an id holds the env's index and the generation |
| Sched.StepKeeps | kern/syscall_all.c:263-497 | every step keeps: queued once iff RUNNABLE, free iff on the free list, waiting only while blocked |
| Sched.RunKeeps | kern/sched.c:38-50 | and so does every run |
| Sched.MailIsKept | kern/syscall_all.c:364-497 | a received value, its sender's id and a child's return value are not overwritten before the receiver's next receive |
| Sched.KillMakesStale | kern/env.c:96-99 | destroying an env makes its id stale |
| Sched.StaleForever | kern/env.c:96-146 | a stale id never becomes valid again in any run |
| SchedFair.WaitShrinks | kern/sched.c:17-51 | every call to schedule dispatches a waiting env or shortens its wait; no step lengthens it |
| SchedFair.BoundedWaiting | kern/sched.c:17-51 | an env that stays runnable is dispatched within (remaining count + priorities of those ahead) + 1 calls |
| SchedFair.TickRotates | kern/sched.c:38-50 | one timer tick runs the head of the plan and rotates the plan by one |
| SchedFair.TicksFollowPlan | kern/sched.c:38-50 | n ticks run the first n entries of the plan |
| SchedFair.ExactShares | kern/sched.c:38-50 | any window of sum(env_pri) ticks runs each runnable env exactly env_pri times, and no other |
| SchedLinks.ScheduleLinks | kern/sched.c:17-51 | schedule on the pointers of the list makes the choice that schedule makes on the sequence they form, and leaves the pointers of the new sequence |
| SchedLinks.BlockLinks | kern/syscall_all.c:364-392 | so do the two blocking receives |
| SchedLinks.SendLinks | kern/syscall_all.c:409-497 | so do the two sends |
| SchedLinks.StatusLinks | kern/syscall_all.c:294-317 | so does sys_set_env_status |
| SchedLinks.RunnableDestroyed | kern/env.c:481-497 | so does env_destroy of a runnable env |
| SchedLinks.StoppedDestroyed | kern/env.c:481 | env_destroy of a stopped env frees it and rewrites the list as its old links say, or panics on a null link |
| SchedLinks.DestroyExact | kern/env.c:443-497 | env_destroy of any env in use panics iff its link is null or the last runnable env destroys itself; otherwise some queue satisfies the invariant iff the env is runnable, or its removal writes nothing new and it is not blocked in a receive |
| SchedLinks.JustBlockedIsClean | kern/env.c:481 | an env that has just blocked can be removed again without harm |
| SchedLinks.BootGood | kern/env.c:155-188 | env_init over zeroed memory gives an empty queue and satisfies the invariant |
| SchedLinks.CreateGood | kern/env.c:365-380 | env_create puts the new env at the head of the list and keeps the invariant |
| SchedLinks.LStepKeeps | kern/syscall_all.c:263-497 | every step on the pointers, destroying a stopped env cleanly included, keeps the invariant and is the step on the sequence |
| SchedLinks.LRunKeeps | kern/sched.c:38-50 | in every run the pointers form a queue in which an env is exactly once iff it is RUNNABLE |
| SchedLinks.QueueUnique | include/queue.h:206-249 | the pointers of a tail queue form one sequence only |
| SchedLinks.LMailIsKept | kern/syscall_all.c:364-497 | in every run on the pointers both mailboxes of an env survive until its next receive, whoever is destroyed meanwhile |
| SchedLinks.LKillMakesStale | kern/env.c:96-99 | destroying any env, stopped ones included, makes its id stale |
| SchedLinks.LStaleForever | kern/env.c:96-146 | and it stays stale in every run on the pointers |
| SchedLinks.ReusedSlotLosesEnv | user/lib/spawn.c:235-239 | destroying an unstarted child in a reused slot, after another env was queued, drops that env from the list while it is runnable, and no queue satisfies the invariant any more |
| SchedLinks.SpawnErrorPanics | user/lib/spawn.c:235-239 | a run from boot, and the error path of spawn for its first child, which panics on a null link |
| SchedLinks.SpawnErrorLosesEnv | user/lib/spawn.c:235-239 | a run from boot in which the error path of spawn loses a runnable env |
| SchedLinks.DestroyedReceiverReceives | kern/syscall_all.c:77-84 | after a blocked env is destroyed, the child that takes its place can be woken by a send before it is started |
| Scheduler.Kernel.constructor | kern/env.c:155-188 | env_init leaves the empty list, null links and every env on the free list in index order, and the invariant holds |
| Scheduler.Kernel.Unlink | include/queue.h:242-249 | the statements of TAILQ_REMOVE on any env; a null link is the panic |
| Scheduler.Kernel.LinkTail | include/queue.h:216-222 | the statements of TAILQ_INSERT_TAIL |
| Scheduler.Kernel.LinkHead | include/queue.h:206-214 | the statements of TAILQ_INSERT_HEAD |
| Scheduler.Kernel.Create | kern/env.c:365-380 | env_create puts one new runnable env at the head of the queue; it has none exactly if env_alloc fails |
| Scheduler.Kernel.Fork | kern/syscall_all.c:263-280 | the statements of sys_exofork compute the step of which ExoforkKeeps holds; the invariant is kept |
| Scheduler.Kernel.ChangeStatus | kern/syscall_all.c:294-317 | the statements of sys_set_env_status; starting a stopped env keeps the queue exact, and the invariant iff the env waits for nothing |
| Scheduler.Kernel.Kill | kern/env.c:474-497 | the statements of env_free and env_destroy for any env in use, on the list pointers: they panic, and keep the object valid for some queue, exactly under the conditions of DestroyExact |
| Scheduler.Kernel.Dispatch | kern/sched.c:17-51 | the statements of schedule on the list pointers |
| Scheduler.Kernel.Reschedule | kern/sched.c:17-51 | the statements of schedule compute the choice of which ScheduleKeeps holds, from any state in which the caller has just blocked, died or yielded |
| Scheduler.Kernel.Receive | kern/syscall_all.c:364-392 | the statements of sys_ipc_recv and sys_recv_return_value compute the step of which BlockKeeps holds |
| Scheduler.Kernel.Deliver | kern/syscall_all.c:409-497 | the statements of sys_ipc_try_send and sys_send_return_value, in their order, compute the step of which SendKeeps holds; the invariant is kept |
| Queue.SplicedInLinked | include/queue.h:128-162 | relinking one element into well-formed slot pointers gives the sequence with it inserted |
| Queue.SplicedOutLinked | include/queue.h:170-175 | relinking around one element gives the sequence without it |
| Queue.List.InsertHead | include/queue.h:156-162 | LIST_INSERT_HEAD refines insertion at the front |
| Queue.List.InsertAfter | include/queue.h:128-136 | LIST_INSERT_AFTER refines insertion behind an element |
| Queue.List.InsertBefore | include/queue.h:143-150 | LIST_INSERT_BEFORE refines insertion in front of an element |
| Queue.List.Remove | include/queue.h:170-175 | LIST_REMOVE refines deletion |
| Queue.TailQ.InsertHead | include/queue.h:206-214 | TAILQ_INSERT_HEAD refines insertion at the front, tqh_last included |
| Queue.TailQ.InsertTail | include/queue.h:216-222 | TAILQ_INSERT_TAIL refines appending |
| Queue.TailQ.InsertAfter | include/queue.h:224-232 | TAILQ_INSERT_AFTER refines insertion behind an element |
| Queue.TailQ.InsertBefore | include/queue.h:234-240 | TAILQ_INSERT_BEFORE refines insertion in front of an element |
| Queue.TailQ.Remove | include/queue.h:242-249 | TAILQ_REMOVE refines deletion, tqh_last included |
| Queue.Rotate | kern/sched.c:38-42 | removing the head and inserting it at the tail, as schedule does, rotates the sequence |
| Queue.StaleRemoveLosesQueue | include/queue.h:242-249 | removing an element again after another has been queued empties the links while that one is in the queue |
| Queue.StaleUnlinkExact | include/queue.h:242-249 | TAILQ_REMOVE of an element that is not in the queue leaves the queue intact if and only if its link is not null and everything it writes into the queue is there already |
| Queue.UnlinkedOrder | include/queue.h:242-249 | no reordering of the same elements can come of it: what is left with the same elements is the same queue |
| Queue.UnlinkQueued | include/queue.h:242-249 | TAILQ_REMOVE of a queued element deletes it from the sequence |
| Queue.AppendQueued | include/queue.h:216-222 | TAILQ_INSERT_TAIL appends to the sequence |
| Queue.PushQueued | include/queue.h:206-214 | TAILQ_INSERT_HEAD puts the element in front |
| Queue.SecondUnlinkHarmless | include/queue.h:242-249 | that condition holds straight after a removal |
| Queue.TailQ.Unlink | include/queue.h:242-249 | the statements of TAILQ_REMOVE on whatever links the element carries, null ones included, with that exact condition |
| Queue.RemoveTwice | kern/env.c:481 | two removals in a row act as one |
| PipeEof.RefBound | user/lib/pipe.c:95-117 | at every step pageref(pipe) is at least pageref(read end) + pageref(write end) |
| PipeEof.RefExact | user/lib/pipe.c:95-117 | and equal to it when no env is inside dup or close |
| PipeEof.ClosedIsTrue | user/lib/pipe.c:95-117 | when _pipe_is_closed answers yes, the other end has no mapping left |
| PipeEof.OpenIsTrue | user/lib/pipe.c:95-117 | when it answers no and no env is inside dup or close, the other end is mapped |
| PipeEof.StepKeeps | user/lib/fd.c:94-176 | every system call of close, dup (its error path included), pipe, fork, exit and the probe keeps the invariant |
| PipeEof.ClosedStays | user/lib/fd.c:128-176 | an end without mappings is never mapped again |
| PipeEof.DupShares | user/lib/fd.c:128-176 | a dup that ends well has the new descriptor share both pages of the old one |
| PipeEof.RunKeeps | user/lib/pipe.c:237-242 | the invariant holds in every state of every run |
| PipeEof.EofIsNeverFalse | user/lib/pipe.c:95-117 | once end-of-file is answered, the other end has no mapping from then on, in every run |
| PipeStream.StepKeeps | user/lib/pipe.c:132-200 | every test, byte transfer, yield and return of one reader and one writer keeps the ring buffer's invariant, whatever has been carried before |
| PipeStream.StreamIsFaithful | user/lib/pipe.c:132-200 | in every interleaving, counter wrap-around included, the bytes read are a prefix of the bytes written, at most PIPE_SIZE are in flight, and wpos - rpos modulo 2^32 is their number |
| PipeStream.ReadReturns | user/lib/pipe.c:132-159 | a read returns the next bytes of the stream, at most n, and none only when the pipe was found closed |
| PipeStream.WriteReturns | user/lib/pipe.c:172-200 | a write has appended the first i bytes of its data, and fewer than all only when the pipe was found closed |
| PipeStream.Progress | user/lib/pipe.c:132-200 | every step of a call brings its end nearer, unless it has to wait for the other side |
| PipeStream.ReadEnds | user/lib/pipe.c:132-159 | a read for n bytes waits only with nothing in hand and the pipe open; its other steps are at most 4n + 3 |
| PipeStream.WriteEnds | user/lib/pipe.c:172-200 | a write of n bytes waits only with the ring full and the pipe open; its other steps are at most 4n + 3 |
| PipeStream.CounterWrapStalls | user/lib/pipe.c:132-159 | a run from a new pipe that carries 2^32 bytes and reaches the stall with one byte unread |
| PipeStream.EmptyTestExact | user/lib/pipe.c:148 | the reader sees an empty pipe if and only if it is empty or the write counter has wrapped once more than the read counter |
| PipeStream.FullTestExact | user/lib/pipe.c:189 | the writer sees a full pipe if and only if it is full, in every run |
| PipeStream.StallIsForever | user/lib/pipe.c:132-200 | once the write counter is a wrap ahead, no byte is read in any continuation although the pipe is not empty |
| PipeJoin.StepKeeps | user/lib/pipe.c:95-200 | calls, tests, probes and transfers together with every mapping step keep both invariants, and the stream only grows |
| PipeJoin.ZeroIsEnd | user/lib/pipe.c:148-150 | a pipe_read for at least one byte that returns 0 has asked _pipe_is_closed, and no env maps the write end |
| PipeJoin.ShortIsEnd | user/lib/pipe.c:189-191 | a pipe_write that returns short has asked, and no env maps the read end |
| PipeJoin.EndIsFinal | user/lib/pipe.c:132-200 | in every run, after such a 0 the write end is never mapped again and no byte is ever added |
| PipeJoin.ShortIsFinal | user/lib/pipe.c:132-200 | in every run, after a short write the read end is never mapped again and no byte is ever taken |
| PipeJoin.ZeroIsCompleteExact | user/lib/pipe.c:124-126 | the documented "nothing has been written since the last read" holds of a 0 if and only if no byte was written between the emptiness test and the return, and the counters have wrapped equally often |
| PipeJoin.SecondZeroIsComplete | user/lib/pipe.c:132-159 | in every run a second 0 means everything was read, if and only if the counters have wrapped equally often |
| PipeJoin.FirstZeroTooEarly | user/lib/pipe.c:147-153 | a run in which a read returns 0 although a byte lies in the ring |
| Bitmap.SetWrites | fs/fs.c:192-203 | setting a bit in its word changes that bit and no other |
| Bitmap.ClearWrites | fs/fs.c:211-224 | clearing a bit in its word changes that bit and no other |
| FsBlocks.AllocFacts | fs/fs.c:211-244 | alloc_block takes a free block and changes no pointer, or changes nothing; it reports a full disk exactly when no block is free |
| FsBlocks.AllocResult | fs/fs.c:211-244 | alloc_block answers the lowest free block if it is cached or a page is left, "no disk" exactly when no block is free, and "no memory" otherwise |
| FsBlocks.ReadExact | fs/fs.c:93-133 | read_block panics exactly off the disk or on a free block, runs out of memory exactly when the block is not cached and no page is left, and changes only the cache |
| FsBlocks.WalkKeeps | fs/fs.c:361-396 | file_block_walk never panics, reports each error exactly when due, and keeps the invariant iff a new index block reads as zeros |
| FsBlocks.MapBlockKeeps | fs/fs.c:409-433 | file_map_block keeps the invariant under the same condition; on success the slot holds the block returned; without alloc nothing changes |
| FsBlocks.MapResult | fs/fs.c:409-433 | what file_map_block answers: the block that is there; "not found" exactly for an empty slot without alloc; else what the allocator answers, and then the slot holds a block that was free |
| FsBlocks.MapResultIndex | fs/fs.c:361-433 | the same where the file gets its index block first: the allocator's answer for the index block if that fails, and otherwise its answer for the data block |
| FsBlocks.ClearBlockKeeps | fs/fs.c:437-451 | file_clear_block empties exactly one slot and frees exactly its block |
| FsBlocks.ClearRangeKeeps | fs/fs.c:712-724 | the clearing loop empties exactly the slots in its range, and panics exactly when the index block is missing, too far or unreadable |
| FsBlocks.TruncateExact | fs/fs.c:702-726 | file_truncate frees exactly the blocks in slots ceil(new) to ceil(old) and the index block if at most ten remain, leaves every other slot and file alone, and loses no block iff none lies past the old size |
| FsBlocks.CreateExact | fs/fs.c:529-563 | a record that comes into use with whatever its place in the directory block holds keeps the disk sound if and only if its pointers are zeros |
| FsBlocks.ExtendKeeps | fs/fs.c:730-742 | file_set_size to a larger size moves no block |
| FsBlocks.WriteDataKeeps | user/lib/file.c:157-180 | writing the data of a file moves no block of any file |
| FsBlocks.StepKeeps | fs/fs.c:702-819 | mapping, clearing, growing, truncating, writing, creating and removing files keep the invariant |
| FsBlocks.RunSafety | fs/fs.c:93-133 | in every run no block is shared or lost, and read_block of any block in use by a file never panics |
| FsBlocks.StaleIndexExample | fs/fs.c:137-148 | a disk on which a cached block's old contents become block pointers |
| FsBlocks.LostTailExample | fs/fs.c:702-726 | a disk on which truncation loses a block |
| FileServer.Server.BlockIsFree | fs/fs.c:178-188 | block_is_free reads the block's bit, and is false off the disk |
| FileServer.Server.FreeBlock | fs/fs.c:192-203 | free_block on packed words sets the bit of exactly one block of the abstract bitmap, and ignores block 0 and blocks off the disk |
| FileServer.Server.AllocBlockNum | fs/fs.c:211-224 | the scan marks the first free block from 3 on |
| FileServer.Server.AllocBlock | fs/fs.c:228-244 | the statements of alloc_block, undoing the allocation when no page is left, compute the call of which AllocFacts holds |
| FileServer.Server.ReadBlock | fs/fs.c:93-133 | the statements of read_block: it panics exactly off the disk or on a block whose bit is set, which RunSafety excludes for blocks in use by a file |
| FileServer.Server.FileBlockWalk | fs/fs.c:361-396 | the statements of file_block_walk compute the walk of which WalkKeeps holds |
| FileServer.Server.FileMapBlock | fs/fs.c:409-433 | the statements of file_map_block compute the mapping of which MapBlockKeeps holds |
| FileServer.Server.FileClearBlock | fs/fs.c:437-451 | the statements of file_clear_block compute the clearing of which ClearBlockKeeps holds |
| FileServer.Server.FileTruncate | fs/fs.c:702-726 | the loop and the tail of file_truncate compute the truncation of which TruncateExact holds |
| FsPath.DirLookup | fs/fs.c:496-524 | dir_lookup finds the first record of that name in the directory's blocks |
| FsPath.LookupFirst | fs/fs.c:496-524 | dir_lookup ends at the first place where a block cannot be read or a record has the name |
| FsPath.WalkEnds | fs/fs.c:582-643 | a walk follows the chain of components as far as it goes, and each way it ends says exactly what comes next |
| FsPath.SkipSlash | fs/fs.c:567-572 | skip_slash stops at the first other character and loses no path component |
| FsPath.WalkPath | fs/fs.c:582-643 | walk_path is the fold of dir_lookup over the slash-separated components, with every error case |
| FsPath.CreateResolves | fs/fs.c:661-688 | after a successful file_create the path leads to the new file, and every path that resolved still reaches the same file |
| FsPath.CreateAddsOne | fs/fs.c:661-688 | no path ends differently unless it now enters the new file |
| FsPath.CreateRefuses | fs/fs.c:661-688 | file_create succeeds if and only if the name is missing from a directory that has an unused record or can grow; a taken path, a long name and an unreadable block have each their own error; creating the same path again is refused and changes nothing |
| FsPath.CreateOverExact | fs/fs.c:529-563 | in a full directory that grows into a block with old records, the new name is the only name added and its file is empty if and only if that block reads as unused records |
| FsPath.StaleDirectoryExample | fs/fs.c:529-688 | creating "a" in an empty root brings back "x" from the block's old contents |
| FsPath.CreateKeeps | fs/fs.c:529-688 | file_create keeps the directory tree well formed and names unique, whether it succeeds or fails |
| FsPath.FailedCreateStays | fs/fs.c:529-563 | after a failed file_create every path that resolved still does |
| FsPath.FailedCreateChanges | fs/fs.c:529-688 | a failed file_create changes the tree if and only if the name is missing from a full directory and no block can be had; names it lacked then give an I/O error, others are found as before |
| FsPath.FullDiskExample | fs/fs.c:661-688 | on a full disk creating "a" fails as "not found", and the second time as an I/O error |
| FsPath.HealKeeps | fs/fs.c:460-475 | when file_get_block later gets that block, the tree stays well formed |
| FsPath.RemoveKeeps | fs/fs.c:792-819 | file_remove keeps the tree well formed |
| FsPath.RemoveResult | fs/fs.c:792-819 | when file_remove succeeds, and what each of its errors means; an error changes nothing |
| FsPath.RemoveExact | fs/fs.c:792-819 | file_remove makes exactly the paths through the removed record stop resolving; for a regular file, exactly those that led to it |
| FsPath.RemoveUndoesCreate | fs/fs.c:661-819 | removing what was just created restores which paths resolve, and to what |
| FsPath.RunKeeps | fs/fs.c:661-819 | every run of creations, removals and late allocations keeps the tree well formed |
| FsPath.PathSurvives | fs/fs.c:496-819 | in every run a path leads to the same file until a removal cuts it |
| FsPath.Namespace.DirAlloc | fs/fs.c:529-563 | the loops of dir_alloc_file return the first unused record, or the first of a new block after growing the directory |
| FsPath.Namespace.Create | fs/fs.c:661-688 | file_create keeps the tree well formed, and on success the path resolves to the file it returns |
| FsPath.Namespace.Remove | fs/fs.c:792-819 | file_remove keeps the tree well formed, and on success the path (unless it is the root) no longer resolves |
| Fsformat.AppendKeeps | tools/fsformat.c:136-185 | next_block with save_block_link adds exactly the new links, index block included, and overwrites nothing |
| Fsformat.WriteKeeps | tools/fsformat.c:269-271 | the reading loop stores every chunk behind the next slots and moves nothing else |
| Fsformat.CreateFileKeeps | tools/fsformat.c:188-241 | create_file gives an unused record in a block of the directory, growing it if needed |
| Fsformat.PutKeeps | tools/fsformat.c:208-273 | adding a file that fits leaves it listed and holding its bytes, with everything added before intact |
| Fsformat.RunHolds | tools/fsformat.c:244-311 | for any set of files that fits, every file is at the end listed in its directory and holds exactly its bytes |
| Fsformat.ReadBack | tools/fsformat.c:244-273 | reading the blocks the recorded size calls for gives the file's bytes |
| Fsformat.ServerFinds | fs/fs.c:361-433 | the server finds for block k the block into which chunk k was written, with any part of the disk cached, or has no page for the index block; it never panics |
| Fsformat.BuiltIsSound | fs/fs.c:702-726 | the built disk satisfies the server's invariant, and no file has blocks past its size |
| ImagePaths.TreePlaces | tools/fsformat.c:208-241 | in the image as a tree of records each record has one place in one directory and unused records have no blocks |
| ImagePaths.FreeInDirectory | tools/fsformat.c:211-235 | the builder finds the record that the server would find unused |
| ImagePaths.PutIsCreated | tools/fsformat.c:188-273 | writing a file or directory is, in the server's tree, the creation of that name in that directory and of nothing else |
| ImagePaths.NextGood | tools/fsformat.c:282-311 | every record keeps its path and the new one is reached by its directory's path and its name |
| ImagePaths.JoinComponents | fs/fs.c:582-643 | the components of a joined path are its parts |
| ImagePaths.EveryPathResolves | tools/fsformat.c:244-311 | in the image of any run whose names are new in their directories, walk_path on the path of every file and directory written reaches its record, which holds the bytes |
| ImageBuilder.FreshBits | tools/fsformat.c:115-125 | init_disk sets exactly the bits of the 1024 blocks |
| ImageBuilder.Builder.constructor | tools/fsformat.c:105-133 | init_disk leaves a sound empty image |
| ImageBuilder.Builder.NextBlock | tools/fsformat.c:136-139 | next_block hands out the lowest block not yet handed out |
| ImageBuilder.Builder.SaveBlockLink | tools/fsformat.c:173-185 | the statements of save_block_link make the links of which AppendKeeps holds, taking an index block after the eleventh data block |
| ImageBuilder.Builder.MakeLinkBlock | tools/fsformat.c:188-193 | make_link_block links one more block of records and grows the directory by its size |
| ImageBuilder.Builder.FindSpare | tools/fsformat.c:208-235 | the scan of create_file finds the first unused record |
| ImageBuilder.Builder.CreateFile | tools/fsformat.c:208-241 | create_file returns a record nobody uses, in a block of that directory, and keeps every file written before |
| ImageBuilder.Builder.WriteFile | tools/fsformat.c:244-273 | after write_file the record is listed, holds exactly the bytes, and everything written before is intact |
| ImageBuilder.Builder.MakeDirectory | tools/fsformat.c:282-295 | after it the new directory is listed in its parent and everything written before is intact |
| ImageBuilder.Builder.FlushBitmap | tools/fsformat.c:142-149 | the bitmap says free exactly for nextbno <= i < NBLOCK, and is the bitmap the server's model starts from |
| Elf.RegularLoads | lib/elfloader.c:25-60 | a regular segment is loaded page by page with the right contents, and fails exactly when memory for its pages is missing |
| Elf.LoadedIsImage | kern/env.c:302-324 | those pages are the segment image, each mapped once |
| Elf.IrregularRepeats | lib/elfloader.c:52-58 | otherwise the first page is mapped twice |
| Elf.LoadExact | lib/elfloader.c:25-60 | a successful load gives the image with each page mapped once if and only if the segment is aligned, or its file part reaches the first page end, or there is nothing to add |
| Elf.IrregularLosesBytes | lib/elfloader.c:25-60 | a segment whose file byte is gone after a load that succeeded |
| Elf.Loader.MapOne | kern/env.c:302-324 | load_icode_mapper: a zeroed page with the bytes copied in replaces what was mapped |
| Elf.Loader.LoadSegment | lib/elfloader.c:25-60 | the branch and the two loops of elf_load_seg compute the load of which LoadExact holds: image and each page once iff the segment is regular |
| Print.DigitCount | lib/print.c:223-233 | the digits are as few as the value allows |
| Print.NumeralValue | lib/print.c:223-233 | the digits, most significant first, have the number as their value |
| Print.FormatLength | lib/print.c:239-258 | the output length is max(width, digits + sign) |
| Print.FormatLayout | lib/print.c:206-279 | where sign, digits and padding stand in each layout, and that letters are in the case asked for |
| Print.FormatRoundTrip | lib/print.c:206-279 | for every value, base, sign, width, adjustment and padding, an independent reader gets the sign and value back |
| Print.FormatInjective | lib/print.c:206-279 | two different numbers never print alike in the same format |
| Print.SignedRoundTrip | lib/print.c:92-98 | %d output reads back as the int, the least int included |
| Print.DigitsFit | lib/print.c:219-233 | a value below 2^k has at most k digits, so the buffer suffices |
| Print.EmitDigits | lib/print.c:223-233 | the do-while loop writes exactly the digits |
| Print.LayOut | lib/print.c:235-258 | sign and padding as laid out before reversal, all inside the buffer |
| Print.ReversePrefix | lib/print.c:269-276 | the swapping loop reverses in place |
| Print.PrintNum | lib/print.c:206-279 | for every 64-bit value, base 2 to 16 and layout, print_num's output has length max(width, digits + sign) and reads back as the sign and value; every write is inside the buffer of length + 70 |
| Print.PrintSigned | lib/print.c:92-98 | for every int the text of the %d case is its sign and magnitude in the layout asked for, and reads back as that int |

## Left out

- TLB drops by tlbp compare ASIDs only; with global pairs the hardware may also drop pairs of other ASIDs, and `VmGlobal` says when there are none.
- Permissions passed to system calls have twelve bits; page_insert ORs them in unmasked, so larger ones would change the frame number.
- Kernel start-up before page_init; the page and env arrays lie in frames that page_init marks as taken.
- VmRun.StepKeeps: a step of a run does not overflow a 16-bit count, finds an ASID for each new env and does not fault past the self-map's own page; `VmRun.InsertExact`, `VmEnv.EnvAllocKeeps` and `VmRun.RefillKeeps` say exactly what happens otherwise.
- Sched.SendKeeps: the fields env_ipc_perm and env_ipc_dstva of a receiver.
- Fork.StepRefines: frames never run out and permissions are reduced to D, COW and LIBRARY; an env inside fork() maps new pages only above the page its loop is at, and does not fault on the page whose permission it has just read (`Fork.OneCallExact` says why); pages are shared between envs by fork only.
- Scheduler and pipes: env_runs and the env id generation are unbounded, so wrap-around after 2^32 dispatches or 2^21 env creations is not modelled.
- SchedLinks.LStepKeeps: a step of a run destroys a stopped env only when its removal is clean and it is not blocked in a receive, and starts only envs that wait for nothing; `SchedLinks.DestroyExact` and `Sched.StartKeeps` say what happens otherwise.
- Scheduler.Kernel.Create: env_create does not look at the result of env_alloc; what it does with the pointer after a failure is not modelled.
- PipeEof.StepKeeps: fork and spawn are one step each.
- PipeStream.StreamIsFaithful: one reader, one writer, one byte per step. In `PipeJoin` too one env reads and one writes, while any number map the ends.
- FsBlocks: dirty marking, write-back and durability of cached blocks; sizes above MAXFILESIZE, where ROUND wraps; freeing the blocks of a removed directory's children.
- FsPath: the bytes of regular files; records are abstract identities whose blocks are described by FsBlocks; in runs a new directory block reads as zeros (unused records); `FsPath.CreateOverExact` says what happens otherwise.
- Fsformat: reading the host's directories, byte order reversal, and file sets that do not fit the disk, which the builder does not check.
- ImagePaths.EveryPathResolves: two files of the same name in one directory, of which the server finds the first, and file names of 128 bytes or more, which write_file accepts.
- Elf.LoadExact: segments whose addresses pass 2^32, where the loader's arithmetic wraps.
- Print: the parsing of the format string, %s and %c.
- user/sh.c, the jobs table, device drivers, the console, assembly, trap frames and small user programs: input and output, or linear scans without a property that spans calls.
