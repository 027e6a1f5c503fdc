# A verified model of Linux 4.6 CPU hotplug and early arm64 memory setup

This project models, in Dafny, a slice of the Linux 4.6 kernel as built for
arm64 with 4 KiB pages and 39-bit virtual addresses. It proves properties of
that model.

The main part is the CPU hotplug state machine of `kernel/cpu.c`. Each CPU
has a `cpuhp_cpu_state` record: its state, the target, and the work flags of
its hotplug thread. Two step tables drive it. The controlling CPU runs the
BP table; each CPU's hotplug thread runs the AP table. The model covers:

- stepping up and down one state at a time, and the undo of a failed step;
- the dispatch of the hotplug thread;
- the `_cpu_up` / `_cpu_down` entry points and the disable counter;
- dynamic registration of states with rollback of a failed install.

Callbacks are opaque. Each call is logged, and its result comes from an
outcome function given to the machine.

Beside it sit self-contained cores from other files:

- `mm/slab_common.c`: object alignment, the kmalloc size-to-cache table and
  its boot-time patching, cache merging, cache reference counts, bulk
  allocation and krealloc.
- `mm/sparse-vmemmap.c`: the vmem_altmap page pool, the bump-pointer
  buffer, and the population of the vmemmap page tables.
- `mm/early_ioremap.c`: the fixed slot table of boot-time mappings and
  chunked copying through it.
- `mm/percpu-vm.c`: allocating, mapping, unmapping and freeing the pages of
  a per-CPU chunk, with exact rollback on failure.
- `kernel/fork.c`: the thread limit, clone and unshare flag rules,
  identity assignment, the error-unwind ladder of `copy_process`, trace
  selection and process counts.
- `arch/arm64/mm/init.c`: the ZONE_DMA limit, zone sizes and holes, `mem=`,
  `memstart_addr`, page-frame bounds, and freeing unused memmap.
- `arch/arm64/mm/mmu.c`: building kernel page tables with blocks, sections
  and pages; splitting blocks; mapping a memory bank around the read-only
  kernel text; the huge-entry helpers; and remapping the device tree.
- `arch/arm64/kernel/cpu_ops.c`: looking up a CPU's boot protocol by name.

The model follows the code, not an idealised description. Two places show
this:

- `undo_cpu_down` re-runs startup callbacks only for states strictly
  between the failing state and the previous state. When the first teardown
  fails, the state ends one above where it started. The contracts state
  this exactly.
- A `BUG_ON` on a CPU-side path sets a ghost `oops` flag, and the model
  keeps running.

Each file is one module. Entities that the source updates in place are
classes: the per-CPU hotplug record and machine, the size-index table, slab
caches and the object heap, the altmap and the vmemmap tables, the
early-ioremap slot table, the per-CPU page array and chunks, the forker's
counters and event log, the boot-time memory variables, and the page
tables. Pure arithmetic is written as functions and lemmas.

## Model

| member | source | states |
|---|---|---|
| HotplugSteps.CbCheck | kernel/cpu.c:1314-1319 | a callback may be installed exactly at the states strictly between OFFLINE and ONLINE; any other state gives -EINVAL |
| HotplugSteps.StoreIn | kernel/cpu.c:1338-1352 | storing callbacks sets the state's name and both callbacks and leaves its flags, every other state's step and the ONLINE step alone |
| HotplugSteps.StoreInTwice | kernel/cpu.c:1338-1352 | a second store into the same state overrides the first completely |
| HotplugSteps.StartupsExactly | kernel/cpu.c:419-445 | a startup call is made while climbing exactly when its state is in the range and its step's startup is non-NULL (and, on rollback, not skip_onerr) |
| HotplugSteps.TeardownsExactly | kernel/cpu.c:389-417 | a teardown call is made while descending exactly when its state is in the range and its step's teardown is non-NULL (and, on rollback, not skip_onerr) |
| HotplugSteps.StartupsAscending | kernel/cpu.c:431-444 | startups run for this CPU only, in strictly ascending state order, at most one per state |
| HotplugSteps.TeardownsDescending | kernel/cpu.c:395-404 | teardowns run for this CPU only, in strictly descending state order, at most one per state |
| HotplugSteps.UpOutcomeState | kernel/cpu.c:408-445 | cpuhp_up_callbacks leaves the state at the target on success; on failure it leaves state and target where the CPU started |
| HotplugSteps.DownOutcomeState | kernel/cpu.c:378-406 | cpuhp_down_callbacks leaves the state at the target on success; on failure the target is reset to the start and the state ends there, or one above it when the very first teardown failed |
| HotplugSteps.UpDone | kernel/cpu.c:431-444 | when every startup succeeds the calls are the startups from the old state to the target, all returning 0 |
| HotplugSteps.DownDone | kernel/cpu.c:395-404 | when every teardown succeeds the calls are the teardowns from the old state down to the target, all returning 0 |
| HotplugSteps.UpFailed | kernel/cpu.c:408-445 | a failing startup is followed by the rollback teardowns of the states already climbed, skip_onerr steps excepted, and its error is returned |
| HotplugSteps.DownFailed | kernel/cpu.c:378-406 | a failing teardown is followed by the rollback startups of the states already descended, skip_onerr steps excepted, and its error is returned |
| HotplugSteps.FirstFreeDyn | kernel/cpu.c:1418-1434 | the reserved dynamic slot is the lowest one without a name, and -1 only when every dynamic slot is named |
| Hotplug.RegularWorkState | kernel/cpu.c:465-476 | the hotplug thread's regular work reaches the target (or TEARDOWN_CPU when that is higher and the CPU is above it), or leaves the CPU where it was with the target pulled back; a failed descent may end one above |
| Hotplug.BpDownState | kernel/cpu.c:866-871 | after the BP part of _cpu_down the CPU is at the target on success; on failure it is back at prev with target prev after a rollback, or where the BP walk started (or one above) with the target pulled back there |
| Hotplug.DownCallsState | kernel/cpu.c:823-880 | from the calls of _cpu_down: success reaches the target (from the AP range only if the thread went all the way) with the target kept; failure leaves the CPU where it was, one above, or at TEARDOWN_CPU, with the target back at the starting state or at TEARDOWN_CPU |
| Hotplug.CpuHpState.constructor | kernel/cpu.c:59 | the per-CPU state starts zeroed: OFFLINE, nothing to run |
| Hotplug.Machine.constructor | kernel/cpu.c:1208-1311 | the step tables hold the static initialisers and every CPU is OFFLINE except the boot CPU, which boot_cpu_state_init puts at ONLINE (lines 1744-1747) |
| Hotplug.Machine.InvokeCallback | kernel/cpu.c:90-102 | a NULL callback is a successful no-op; any other is called once and its result returned |
| Hotplug.Machine.UndoCpuDown | kernel/cpu.c:378-387 | the rollback startups run from one above the state up to below the target, skip_onerr steps excepted, and the state ends at the target (or one above the start) |
| Hotplug.Machine.DownWalk | kernel/cpu.c:395-404 | the teardowns run from the state down, stopping at the first failure with the state at the failing step |
| Hotplug.Machine.DownCallbacks | kernel/cpu.c:389-406 | cpuhp_down_callbacks has the outcome DownOutcome: the teardowns to the target, or the failing one followed by the rollback |
| Hotplug.Machine.UndoCpuUp | kernel/cpu.c:408-417 | the rollback teardowns run from one below the state down to above the target, skip_onerr steps excepted, and the state ends at the target |
| Hotplug.Machine.UpWalk | kernel/cpu.c:431-444 | the startups run from one above the state up to the target, stopping at the first failure with the state at the failing step |
| Hotplug.Machine.UpCallbacks | kernel/cpu.c:419-445 | cpuhp_up_callbacks has the outcome UpOutcome: the startups to the target, or the failing one followed by the rollback |
| Hotplug.Machine.ApOnline | kernel/cpu.c:473-476 | the thread steps up through the AP table to the CPU's target |
| Hotplug.Machine.ApOffline | kernel/cpu.c:465-470 | the thread steps down through the AP table, never below TEARDOWN_CPU |
| Hotplug.Machine.ThreadFun | kernel/cpu.c:482-528 | a wake-up with nothing to run changes nothing; otherwise it does exactly one of a single callback, the pending rollback up to the target, or regular stepping; a BUG_ON below AP_ONLINE_IDLE is recorded |
| Hotplug.Machine.RollbackWork | kernel/cpu.c:506-515 | the rollback branch brings the CPU back up to its target with the rollback startups and clears the rollback flag |
| Hotplug.Machine.ApWork | kernel/cpu.c:516-525 | the regular branch steps up or down as RegularWork says, within the state space |
| Hotplug.Machine.KickApWork | kernel/cpu.c:553-576 | kicking the thread performs its rollback or its regular work and returns its result, leaving nothing to run |
| Hotplug.Machine.InvokeApCallback | kernel/cpu.c:531-550 | an offline CPU reports success without a call; an online one runs the callback once on its thread, and its state and target do not move |
| Hotplug.Machine.NotifyCpuStarting | kernel/cpu.c:914-926 | the incoming CPU runs the AP startups up to the lower of its target and AP_ONLINE, and only its state changes |
| Hotplug.Machine.CpuUp | kernel/cpu.c:959-1021 | a CPU that is not present gives -EINVAL with nothing done; one at or above the target gives 0 and an OFFLINE one whose idle thread is missing gives that error, with nothing done; otherwise the target is set and the calls made are exactly the AP thread's startups (with their rollback) from the AP range, or the BP startups up to BRINGUP_CPU (with their rollback), ending at the target or back at the start with the target pulled back; no other CPU's state changes |
| Hotplug.Machine.CpuUpAp | kernel/cpu.c:1001-1017 | from the AP range the calls are exactly the thread's walk up to the target (with its rollback), and the BP walk to BRINGUP_CPU that follows adds none |
| Hotplug.Machine.CpuDown | kernel/cpu.c:823-880 | the last online CPU gives -EBUSY and one that is not present -EINVAL, both with nothing done; otherwise the calls are exactly DownCalls (the thread's walk from the AP range, then if it reached TEARDOWN_CPU the BP teardowns and, on their failure in the AP range, the thread's rollback startups back to the starting state), and the final state and target are those DownCallsState derives, including the target on failure; no other CPU's state changes |
| Hotplug.Machine.CpuDownAp | kernel/cpu.c:846-871 | from the AP range the thread walks first; an error or a stop above TEARDOWN_CPU ends _cpu_down with exactly the thread's calls, otherwise the BP part's calls follow them |
| Hotplug.Machine.CpuDownBp | kernel/cpu.c:866-871 | the BP teardowns reach the target, or on failure the CPU is rolled back up to where _cpu_down found it, or left where the teardowns stopped outside the AP range; the calls are exactly the teardowns of cpuhp_down_callbacks followed, on a rollback, by the thread's startups back to prev |
| Hotplug.Machine.RollbackAp | kernel/cpu.c:867-871 | the target goes back to prev and the thread's undo_cpu_down startups above the current state bring the CPU to prev |
| Hotplug.Machine.DoCpuUp | kernel/cpu.c:1023-1054 | an impossible CPU gives -EINVAL, a node error that error and a disabled hotplug -EBUSY, each with nothing done; otherwise _cpu_up's result |
| Hotplug.Machine.DoCpuDown | kernel/cpu.c:882-898 | a disabled hotplug gives -EBUSY with nothing done; otherwise _cpu_down's result |
| Hotplug.Machine.Disable | kernel/cpu.c:257-262 | cpu_hotplug_disable increments the disable count |
| Hotplug.Machine.Enable | kernel/cpu.c:265-270 | cpu_hotplug_enable decrements it |
| Hotplug.Machine.InstallCallsExactly | kernel/cpu.c:1477-1490 | a pass issues a call to a CPU exactly when it is present, below the bound, its state has reached the slot, the callback is non-NULL and, for an AP state, the CPU is online |
| Hotplug.Machine.InstallCallsAscending | kernel/cpu.c:1477-1490 | the pass visits CPUs in ascending order, at most one call each |
| Hotplug.Machine.InstallCallsNull | kernel/cpu.c:1366-1367 | a NULL callback is never issued |
| Hotplug.Machine.StoreCallbacks | kernel/cpu.c:1338-1352 | the tables become StoreIn of the old ones, and the ONLINE step is untouched |
| Hotplug.Machine.ReserveState | kernel/cpu.c:1418-1434 | the lowest unnamed dynamic slot is named "Reserved" and returned, its callbacks kept; -ENOSPC with the tables unchanged when none is free |
| Hotplug.Machine.IssueCall | kernel/cpu.c:1363-1384 | the call made is IssuedCall (none for NULL or for an AP state on an offline CPU); a failing teardown is recorded as a BUG_ON; the CPU's state does not move |
| Hotplug.Machine.TeardownPass | kernel/cpu.c:1525-1531 | the teardown goes to each present CPU below the bound whose state has reached the slot |
| Hotplug.Machine.RollbackInstall | kernel/cpu.c:1391-1411 | the teardown goes to every present CPU below the one that failed whose state has reached the slot, and to no other |
| Hotplug.Machine.SetupState | kernel/cpu.c:1446-1496 | a bad state or NULL name gives -EINVAL and no free dynamic slot -ENOSPC, both with nothing done; otherwise the callbacks are stored and, when asked, the startup issued to every CPU that reached the slot, returning the slot for a dynamic request and 0 otherwise; a failing startup is undone on the CPUs before it, the slot cleared and the error returned |
| Hotplug.Machine.StoreAndInstall | kernel/cpu.c:1468-1490 | the part after the slot is known: store, then install or abort as SetupState says |
| Hotplug.Machine.InstallStartups | kernel/cpu.c:1477-1490 | the startup goes to every present CPU that reached the slot; at the first failure the CPUs already done get the teardown and the slot is cleared |
| Hotplug.Machine.AbortInstall | kernel/cpu.c:1485-1488 | after a failing startup the teardowns go to the CPUs before it and the slot is cleared |
| Hotplug.Machine.RemoveState | kernel/cpu.c:1508-1535 | with invoke, the slot's teardown goes to every present CPU that reached it; the slot is then cleared whatever happened |
| CpuOps.LookupKnown | arch/arm64/kernel/cpu_ops.c:33-45 | the device-tree table finds spin-table and psci but not the parking protocol; the ACPI table finds psci, never spin-table, and the parking protocol only when it is built in |
| CpuOps.LookupFound | arch/arm64/kernel/cpu_ops.c:57-65 | a lookup that succeeds returns the first entry, in table order, whose name equals the requested one |
| CpuOps.LookupMissing | arch/arm64/kernel/cpu_ops.c:57-65 | the lookup returns NULL exactly when no entry of the table has the name |
| CpuOps.Machine.GetOps | arch/arm64/kernel/cpu_ops.c:47-68 | the walk over the table chosen by acpi_disabled returns the first entry with the name, or NULL |
| CpuOps.Machine.ReadOps | arch/arm64/kernel/cpu_ops.c:119-137 | no enable method gives -ENODEV and leaves cpu_ops alone; otherwise only cpu_ops[cpu] is written, with the lookup's result, and the result is -EOPNOTSUPP when that is NULL and 0 otherwise |
| CpuOps.ReadOpsMeaning | arch/arm64/kernel/cpu_ops.c:119-137 | cpu_read_ops succeeds exactly when some supported protocol carries the enable method's name, and the recorded protocol has that name |
| KmallocIndex.DefaultServes | mm/slab_common.c:841-866 | every entry of the static size_index table names a cache at least as large as the requests of its 8-byte band |
| KmallocIndex.KmallocSlabFits | mm/slab_common.c:877-908 | kmalloc_slab gives NULL exactly above KMALLOC_MAX_SIZE and ZERO_SIZE_PTR exactly for 0; otherwise it picks a cache of the requested DMA kind that holds the request |
| KmallocIndex.KmallocSlabTight | mm/slab_common.c:899-900 | above 192 bytes the chosen power-of-two cache is the smallest that holds the request |
| KmallocIndex.SizeIndexTable.constructor | mm/slab_common.c:841-866 | the boot-time table starts as the static size_index |
| KmallocIndex.SizeIndexTable.Setup | mm/slab_common.c:946-980 | setup_kmalloc_cache_index_table's three loops leave the table as Patched: entries below KMALLOC_MIN_SIZE at KMALLOC_SHIFT_LOW, then 72..96 at 7 and 136..192 at 8 when the minimum is at least 64 or 128 |
| KmallocIndex.PatchedChanges | mm/slab_common.c:953-980 | only entries below KMALLOC_MIN_SIZE and the two fixed bands are rewritten; entries below the minimum outside those bands hold KMALLOC_SHIFT_LOW |
| KmallocIndex.PatchedServes | mm/slab_common.c:946-980 | the patched table still names a large enough cache for every band |
| KmallocIndex.PatchedCachesExist | mm/slab_common.c:946-1009 | for KMALLOC_MIN_SIZE up to 128 every patched entry names a cache that create_kmalloc_caches creates |
| KmallocIndex.PatchedMissingCache | mm/slab_common.c:946-1009 | for KMALLOC_MIN_SIZE 256, kmalloc(80) is sent to cache 7, which is never created |
| KmallocIndex.FixedCachesExist | mm/slab_common.c:946-1009 | with the minimum-size loop taking precedence, every entry names a created cache that is large enough, for every admitted KMALLOC_MIN_SIZE |
| SlabCaches.HwAlignBounds | mm/slab_common.c:325-329 | the cache-line halving stops at the first value whose half is below the object size, and goes below the cache line only while the object still fits |
| SlabCaches.AlignmentBounds | mm/slab_common.c:313-337 | the alignment is a multiple of the pointer size, at least the requested alignment, ARCH_SLAB_MINALIGN and, with SLAB_HWCACHE_ALIGN, the halved cache line, and less than a pointer size above the largest of them |
| SlabCaches.CalculateAlignment | mm/slab_common.c:313-337 | the halving loop and the two adjustments compute Alignment |
| SlabCaches.OldestMergeableMeaning | mm/slab_common.c:281-303 | the reverse walk finds a cache that passes every test and no older cache passes them; it finds nothing only when no cache passes |
| SlabCaches.MergeableMeaning | mm/slab_common.c:233-257 | a cache that passes is mergeable at all, is at least as large as the new one and wastes less than a pointer per object, agrees on the SLAB_MERGE_SAME flags, and its size is a multiple of the alignment |
| SlabCaches.SlabState.FindMergeable | mm/slab_common.c:259-304 | slab_nomerge, a never-merge flag or a constructor give NULL; otherwise the size is rounded to a pointer, the alignment computed, the size rounded to it, and the result is the oldest cache that passes the tests |
| SlabCaches.WithoutMembers | mm/slab_common.c:729-763 | removing a cache from slab_caches keeps exactly the other caches |
| SlabCaches.Cache.constructor | mm/slab_common.c:354-362 | a new kmem_cache carries the name, sizes, alignment and constructor it is given |
| SlabCaches.SlabState.CreateCache | mm/slab_common.c:339-384 | a failed allocation gives -ENOMEM and a failed initialisation its error, both leaving slab_caches alone; success gives a fresh root cache with the given name, sizes, alignment, flags and constructor and reference count 1 at the head of slab_caches |
| SlabCaches.SlabState.Destroy | mm/slab_common.c:729-763 | NULL does nothing; otherwise the count drops by one and, when it reaches 0 and shutdown finds no objects, the cache leaves slab_caches |
| SlabAlloc.IdsSnoc | mm/slab_common.c:112-117 | appending a pointer to the array adds exactly its object to the set the array names |
| SlabAlloc.Heap.constructor | mm/slab_common.c:108-134 | the allocator starts with no live objects and the given failure and slack oracles |
| SlabAlloc.Heap.Alloc | mm/slab_common.c:128 | an allocation either fails, leaving the heap alone, or adds one new object of at least the requested size and keeps every other object's contents |
| SlabAlloc.Heap.Free | mm/slab_common.c:112-117 | freeing an object removes exactly it; NULL and ZERO_SIZE_PTR are ignored |
| SlabAlloc.Heap.FreeBulk | mm/slab_common.c:108-118 | __kmem_cache_free_bulk frees exactly the first nr objects of the array |
| SlabAlloc.Heap.AllocBulk | mm/slab_common.c:120-134 | all or nothing: either nr distinct new objects of the cache's size fill p[0..nr) and nothing else changes, or 0 is returned with the heap as it was; entries past nr are untouched |
| SlabAlloc.Heap.AllocInto | mm/slab_common.c:125-130 | one pass of the bulk loop keeps the filled prefix distinct, new and at least the cache's size, or on a failed allocation frees the whole prefix so the heap is back to what it was |
| SlabAlloc.Heap.DoKrealloc | mm/slab_common.c:1224-1242 | p is returned unchanged when its ksize covers the request; otherwise the result is NULL with the heap unchanged, or a new object of at least the request whose first ksize(p) bytes are p's; p itself survives |
| SlabAlloc.Heap.KreallocNoFree | mm/slab_common.c:1255-1262 | size 0 gives ZERO_SIZE_PTR without touching the heap; otherwise __do_krealloc's outcome, and p is never freed |
| SlabAlloc.Heap.Krealloc | mm/slab_common.c:1276-1289 | size 0 frees p and gives ZERO_SIZE_PTR; on failure p is kept; when a different buffer comes back it holds p's surviving bytes, p is freed and every other object keeps its contents; when p comes back nothing changes |
| Vmemmap.GrowsKeepsPopulated | mm/sparse-vmemmap.c:173-221 | the populate helpers only install entries, so a range once backed stays backed |
| Vmemmap.FirstBit | mm/sparse-vmemmap.c:113-120 | find_first_bit gives k such that 2^k divides n and n / 2^k is odd |
| Vmemmap.FirstBitStep | mm/sparse-vmemmap.c:113-120 | for an even n the lowest set bit is one above that of n / 2 |
| Vmemmap.RequestAlign | mm/sparse-vmemmap.c:113-120 | the alignment of a request of n pages is the largest power of two dividing n |
| Vmemmap.Altmap.constructor | mm/sparse-vmemmap.c:91-104 | a vmem_altmap starts with nothing allocated and no alignment padding |
| Vmemmap.Altmap.NrFree | mm/sparse-vmemmap.c:97-104 | the free pages are free less what was allocated and padded, and 0 when that is exceeded |
| Vmemmap.Altmap.Alloc | mm/sparse-vmemmap.c:113-127 | the pages start at the next free pfn rounded up to the request's alignment; when they and their padding do not fit, ULONG_MAX is returned and nothing changes; otherwise alloc and align grow by the pages and the padding, and the run ends inside the pool |
| Vmemmap.Altmap.AllocBlockBuf | mm/sparse-vmemmap.c:129-151 | a size that is not whole pages gives NULL; a success is the page-aligned physical address of pages taken from the pool's next free pfn; a request that fits and is already aligned succeeds |
| Vmemmap.Tables.constructor | mm/sparse-vmemmap.c:34-46 | the tables start empty with no bump buffer |
| Vmemmap.Tables.AllocBlock | mm/sparse-vmemmap.c:51-71 | vmemmap_alloc_block gives what the page allocator gives for this attempt |
| Vmemmap.Tables.AllocBlockBuf | mm/sparse-vmemmap.c:74-89 | when the size-aligned piece fits in vmemmap_buf it is carved off and the buffer moves past it; otherwise the buffer stays and vmemmap_alloc_block is used |
| Vmemmap.Tables.PopulateLevel | mm/sparse-vmemmap.c:173-221 | an empty entry is filled when the allocation succeeds, an existing one is kept as it is, and success means the entry is present; nothing else is installed |
| Vmemmap.Tables.PopulatePage | mm/sparse-vmemmap.c:232-247 | one page's pgd, pud, pmd and pte are populated in turn; success means every level covering the page is present |
| Vmemmap.Tables.PopulateBasepages | mm/sparse-vmemmap.c:223-249 | the result is 0 exactly when every page of [start, end) is backed, and -ENOMEM otherwise; tables only grow |
| Vmemmap.Tables.SectionPopulate | mm/sparse-vmemmap.c:251-265 | the section's memmap address is returned exactly when its whole memmap is backed, NULL otherwise |
| Vmemmap.Tables.PopulateSection | mm/sparse-vmemmap.c:285-298 | one pass records a present section's backed memmap, or NULL and a cleared section_mem_map, and touches no other section |
| Vmemmap.Tables.PopulateNode | mm/sparse-vmemmap.c:267-307 | every present section in the range gets its backed memmap or NULL with its section_mem_map cleared; other sections are untouched; a bootmem buffer is used, then its unused tail (from the final bump pointer, at or past the buffer's start, to the buffer's end) is freed once, and the buffer cleared |
| EarlyIoremap.FindSlot | mm/early_ioremap.c:108-114 | the slot search returns the first index holding the value, or -1 exactly when no slot holds it |
| EarlyIoremap.SetRangeAt | mm/early_ioremap.c:143-152 | after setting n pages from index hi down, index hi - j maps pa + j pages, and every other index is as it was |
| EarlyIoremap.ClearRangeAt | mm/early_ioremap.c:197-205 | after clearing n pages from index hi down, exactly those indices are gone and the rest keep their entries |
| EarlyIoremap.ClearSetRange | mm/early_ioremap.c:143-152 | clearing the pages just set gives the fixmap with those pages cleared, whatever was set |
| EarlyIoremap.ClearRangeAbsent | mm/early_ioremap.c:197-205 | clearing pages that hold nothing changes nothing |
| EarlyIoremap.PageBase | mm/early_ioremap.c:129-130 | masking with PAGE_MASK gives a page boundary |
| EarlyIoremap.RoundUpShift | mm/early_ioremap.c:131 | page-aligning a range that starts on a page boundary rounds only its offset part |
| EarlyIoremap.MapPagesCover | mm/early_ioremap.c:129-136 | the pages mapped cover the offset plus the size with less than a page to spare, and early_iounmap of the same size clears the same count (lines 194-195) |
| EarlyIoremap.MapPagesTruncated | mm/early_ioremap.c:102 | stored in an unsigned int, the page count of a 2^44 + 1 byte request wraps to 1 and passes the NR_FIX_BTMAPS check while covering one page only |
| EarlyIoremap.LastAddr | mm/early_ioremap.c:120-123 | in 64 bits, phys + size - 1 is below phys exactly when a non-empty range wraps; otherwise it is the last byte |
| EarlyIoremap.Ioremap.constructor | mm/early_ioremap.c:63-65 | every slot starts free, with an empty fixmap consistent with them |
| EarlyIoremap.Ioremap.WindowsDisjoint | mm/early_ioremap.c:143 | slot windows are NR_FIX_BTMAPS indices apart and never overlap |
| EarlyIoremap.Ioremap.SlotVirtAligned | mm/early_ioremap.c:67-77 | each slot's virtual address is page aligned and at least a window above the previous slot's |
| EarlyIoremap.Ioremap.Setup | mm/early_ioremap.c:67-77 | early_ioremap_setup records __fix_to_virt of each slot's top index |
| EarlyIoremap.Ioremap.SearchSlot | mm/early_ioremap.c:108-114 | the loop returns FindSlot of the slot table |
| EarlyIoremap.Ioremap.MapConsistent | mm/early_ioremap.c:125-159 | taking a free slot for a range that fits keeps the slot table and fixmap in step |
| EarlyIoremap.Ioremap.SizeConsistent | mm/early_ioremap.c:125 | recording a size for a slot that stays free does not disturb that agreement |
| EarlyIoremap.Ioremap.UnmapConsistent | mm/early_ioremap.c:195-206 | freeing a slot in use and clearing its pages keeps the agreement |
| EarlyIoremap.Ioremap.SetPages | mm/early_ioremap.c:143-152 | the __early_set_fixmap loop leaves the fixmap as SetRange |
| EarlyIoremap.Ioremap.ClearPages | mm/early_ioremap.c:197-205 | the clearing loop leaves the fixmap as ClearRange |
| EarlyIoremap.Ioremap.Map | mm/early_ioremap.c:97-160 | NULL with nothing changed when no slot is free or for a zero or wrapping range; NULL after recording the size when more than NR_FIX_BTMAPS pages are needed; otherwise the lowest free slot maps the pages and records and returns the address of phys in its window |
| EarlyIoremap.Ioremap.MapSlot | mm/early_ioremap.c:125-159 | the part after the checks has the same outcome as the whole |
| EarlyIoremap.Ioremap.Unmap | mm/early_ioremap.c:162-207 | an unknown address, a size other than the recorded one or an address below the windows changes nothing; otherwise the slot's pages are cleared and the slot freed |
| EarlyIoremap.Ioremap.TranslateMapped | mm/early_ioremap.c:143-158 | every byte of a slot window mapped from pa translates to the matching byte from pa |
| EarlyIoremap.Ioremap.Memcpy | mm/early_ioremap.c:245 | the copy reads each byte through the fixmap and writes only its destination range |
| EarlyIoremap.Ioremap.ChunkMapped | mm/early_ioremap.c:244 | mapping a chunk takes the lowest free slot, records its window and size, and sets its pages |
| EarlyIoremap.Ioremap.ChunkWindow | mm/early_ioremap.c:244-246 | early_memunmap finds the chunk's window by its address and clears exactly the pages mapped, which cover the chunk |
| EarlyIoremap.Ioremap.SlotStartsFree | mm/early_ioremap.c:158 | no other slot in use holds the first address of a slot's window |
| EarlyIoremap.Ioremap.ChunkReadable | mm/early_ioremap.c:244-245 | the bytes of the mapped chunk read back from its physical source |
| EarlyIoremap.Ioremap.ChunkRestored | mm/early_ioremap.c:244-246 | unmapping the chunk restores the slot table and fixmap of before it was mapped |
| EarlyIoremap.Ioremap.MapChunk | mm/early_ioremap.c:238-244 | a chunk of at most MAX_MAP_CHUNK bytes with its slop is mapped in the lowest free slot, and its page count fits the window |
| EarlyIoremap.Ioremap.UnmapChunk | mm/early_ioremap.c:246 | the chunk's slot is freed and its pages cleared |
| EarlyIoremap.Ioremap.CopyChunk | mm/early_ioremap.c:238-249 | one round copies the chunk's bytes from physical memory and leaves the slot table and fixmap as they were |
| EarlyIoremap.Ioremap.CopyFromEarlyMem | mm/early_ioremap.c:233-250 | dest[d..d+size) receives the bytes of physical memory at src, nothing else of dest changes, and the slot table and fixmap are as before |
| EarlyIoremap.Ioremap.CheckLeak | mm/early_ioremap.c:79-94 | 1 exactly when some slot is still in use, 0 otherwise |
| EarlyIoremap.CountUsedZero | mm/early_ioremap.c:83-86 | no slot counts as used exactly when every slot is free |
| PercpuVm.RowBaseMul | mm/percpu-vm.c:97 | unit c's entries start at c times the pages per unit, as pcpu_page_idx computes |
| PercpuVm.RowsApart | mm/percpu-vm.c:97 | the entries of different units never overlap |
| PercpuVm.RowIdsMem | mm/percpu-vm.c:65-70 | the pages of a unit's range are exactly its non-NULL entries |
| PercpuVm.GridIdsMem | mm/percpu-vm.c:64-71 | the pages of the range across units are exactly their non-NULL entries |
| PercpuVm.GridMapAt | mm/percpu-vm.c:227-237 | the mappings of the range are exactly its places, each mapping the entry for that unit and page |
| PercpuVm.MapUnmapRoundTrip | mm/percpu-vm.c:157-174 | unmapping a range mapped into an area where it was not mapped gives the area back, and while mapped each place reads back its entry |
| PercpuVm.DepopulateUndoesPopulate | mm/percpu-vm.c:282-339 | depopulating a range just populated gives back the mappings and the live pages of before |
| PercpuVm.GridIdsRecorded | mm/percpu-vm.c:163-170 | entries that record what is mapped hold exactly the mapped pages |
| PercpuVm.PcpuVm.GetPages | mm/percpu-vm.c:33-46 | the temporary array is allocated zeroed on the first call that can get it and is returned unchanged afterwards; NULL when that allocation fails |
| PercpuVm.PcpuVm.AllocPage | mm/percpu-vm.c:99 | alloc_pages_node gives a new page or NULL, and the live set gains exactly it |
| PercpuVm.PcpuVm.FreeRows | mm/percpu-vm.c:64-71 | freeing the range of the first units removes exactly their non-NULL pages |
| PercpuVm.PcpuVm.FreePages | mm/percpu-vm.c:58-72 | pcpu_free_pages frees exactly the non-NULL entries of the range of every unit |
| PercpuVm.PcpuVm.AllocRow | mm/percpu-vm.c:96-102 | on success a unit's range holds new pages and live gains exactly them; on failure the pages this unit got are freed from the top down; nothing outside the row is written |
| PercpuVm.PcpuVm.FreeRowDown | mm/percpu-vm.c:107-108 | the first error loop frees exactly the pages the failing unit got before the failing one |
| PercpuVm.PcpuVm.AllocUnit | mm/percpu-vm.c:95-116 | one unit's round either extends the filled units by one, or frees every page of this call and leaves live as it was |
| PercpuVm.PcpuVm.AllocPages | mm/percpu-vm.c:85-117 | 0 with every entry of the range holding a page that was not live before, live gaining exactly those and other entries untouched; or -ENOMEM with live as it was |
| PercpuVm.PcpuVm.MapRow | mm/percpu-vm.c:197-202 | __pcpu_map_pages maps the unit's entries at its places, or fails with -ENOMEM and maps nothing |
| PercpuVm.PcpuVm.SetRowChunk | mm/percpu-vm.c:234-236 | every page of the unit's range is marked as the chunk's |
| PercpuVm.PcpuVm.UnmapRows | mm/percpu-vm.c:240-245 | the error path unmaps the ranges of the units before the failing one |
| PercpuVm.PcpuVm.MapUnit | mm/percpu-vm.c:227-245 | one unit's round maps and marks one more unit, or unmaps the earlier units so the area is as before, keeping the marks already made |
| PercpuVm.PcpuVm.MapPages | mm/percpu-vm.c:218-248 | success maps every unit's range and marks all its pages as the chunk's; failure leaves the area as it was, with the pages of the units before the failing one still marked |
| PercpuVm.PcpuVm.RecordRow | mm/percpu-vm.c:164-170 | each entry of the unit's range records the page mapped at its place; no other entry changes |
| PercpuVm.PcpuVm.UnmapPages | mm/percpu-vm.c:157-174 | the range of every unit is unmapped, its entries record the pages that were mapped there, and entries outside the range keep their content |
| PercpuVm.PcpuVm.Populate | mm/percpu-vm.c:282-304 | on success every place of the range maps a page that was not live before, is now live and belongs to the chunk; on failure the area and the live pages are as they were |
| PercpuVm.PcpuVm.Depopulate | mm/percpu-vm.c:318-339 | the range of every unit is unmapped and exactly the pages mapped there are freed |
| Fork.SetMaxThreads | kernel/fork.c:280-301 | max_threads always lies in [MIN_THREADS, MAX_THREADS], never exceeds a suggestion of at least MIN_THREADS, and equals an in-range suggestion that memory allows |
| Fork.ProductFits | kernel/fork.c:291-295 | when the fls64 test lets the division run, totalram_pages * PAGE_SIZE fits in 64 bits, so the u64 product is exact |
| Fork.MaxThreadsFitMemory | kernel/fork.c:289-300 | unless raised to MIN_THREADS, max_threads stacks of THREAD_SIZE take at most an eighth of memory |
| Fork.SetMaxThreadsMono | kernel/fork.c:297-300 | a larger suggestion never gives a smaller max_threads |
| Fork.CloneFlagsChecked | kernel/fork.c:1279-1319 | the flag checks at the top of copy_process return -EINVAL exactly when one of the six rules (NEWNS+FS, NEWUSER+FS, THREAD without SIGHAND, SIGHAND without VM, PARENT from an unkillable init, THREAD into another pid or user namespace) is broken, and pass otherwise |
| Fork.ThreadSharesVm | kernel/fork.c:1289-1298 | a thread that passes the checks shares both the signal handlers and the address space |
| Fork.ApplyRule | kernel/fork.c:2007-2008 | one rule of unshare adds its bits exactly when the flags contain its test bit |
| Fork.ImplyUnshareFlags | kernel/fork.c:2003-2023 | the implication block of unshare computes the closure of the request under its four rules, applied in order |
| Fork.UnshareClosureClosed | kernel/fork.c:2003-2023 | the result keeps every requested flag and satisfies NEWUSER => THREAD and FS, VM => SIGHAND, SIGHAND => THREAD, NEWNS => FS |
| Fork.UnshareClosureLeast | kernel/fork.c:2003-2023 | the result is contained in every superset of the request that satisfies the four rules: nothing is unshared that the rules do not force |
| Fork.UnshareClosureFixed | kernel/fork.c:2003-2023 | flags that already satisfy the rules are left unchanged |
| Fork.UnshareClosureIdempotent | kernel/fork.c:2003-2023 | running the implication block twice gives the same flags as running it once |
| Fork.UnshareFlagsChecked | kernel/fork.c:1918-1944 | check_unshare_flags returns 0 or -EINVAL, and 0 exactly when every bit is in the allowed CLONE_* set, THREAD/SIGHAND/VM come with an empty thread group, SIGHAND/VM with an unshared sighand, and VM with a single-threaded task |
| Fork.TraceEventKinds | kernel/fork.c:1741-1751 | no event with CLONE_UNTRACED or when the tracer did not enable it; otherwise VFORK for CLONE_VFORK, CLONE when the exit signal is not SIGCHLD, else FORK |
| Fork.IdentityAssigned | kernel/fork.c:1529-1541 | a thread gets exit_signal -1 and current's tgid and leader; a process leads its own group with tgid = pid and signals with the CSIGNAL bits, or with the leader's exit_signal under CLONE_PARENT; the tgid/leader invariant is kept |
| Fork.LeaderExitSignal | kernel/fork.c:1529-1541 | when current's leader has a non-negative exit_signal, the new task is its own group leader exactly when its exit_signal is non-negative, which is what thread_group_leader tests at kernel/fork.c:1604 |
| Fork.LadderLabels | kernel/fork.c:1320-1490 | every failing step of copy_process jumps to the ladder label that releases exactly the resources taken before it |
| Fork.LadderReleasesInReverse | kernel/fork.c:1649-1690 | falling through the ladder from a label releases the resources actually taken, newest first, skipping those the call did not take |
| Fork.StepErrorNegative | kernel/fork.c:1320-1490 | the error a failing step of copy_process returns is always negative |
| Fork.LadderTrace | kernel/fork.c:1320-1490 | taking the first n resources and then falling through the ladder from label n gives the take-then-release trace |
| Fork.SumIncrement | kernel/fork.c:122-131 | incrementing one CPU's process count raises nr_processes by exactly one |
| Fork.Forker.constructor | kernel/fork.c:122-131 | a fresh system has no threads, no forks and a zero process count on every CPU |
| Fork.Forker.NrProcesses | kernel/fork.c:122-131 | nr_processes returns the sum of the per-CPU process counts |
| Fork.Forker.Unwind | kernel/fork.c:1649-1690 | falling through the ladder from label n appends exactly the releases of the ladder from n |
| Fork.Forker.TakeStep | kernel/fork.c:1320-1490 | a setup step that succeeds takes the next resource of the ladder order when the call needs it and keeps the labels in step |
| Fork.Forker.FailStep | kernel/fork.c:1320-1490 | a setup step that fails releases, newest first, everything taken so far |
| Fork.Forker.Commit | kernel/fork.c:1600-1634 | a task with a pid adds one to nr_threads, a new group leader also one to the process count, and every fork one to total_forks |
| Fork.Forker.CopyProcess | kernel/fork.c:1279-1634 | bad flags fail with -EINVAL before anything is taken; any failure returns a negative error after releasing everything taken, newest first, with no counter changed; success needs nr_threads < max_threads, takes every resource, assigns the identity and counts the task |
| Fork.Forker.RunSteps | kernel/fork.c:1320-1490 | the setup steps either all succeed, which needs nr_threads < max_threads and takes every resource the call needs in order, or one fails with a negative error after the ladder has released, newest first, what was taken |
| Fork.Forker.RunStep | kernel/fork.c:1320-1490 | a failing step returns its negative error after the ladder from its label has run; a succeeding step moves on with its resource taken |
| Arm64Init.MaxZoneDmaPhys | arch/arm64/mm/init.c:83-87 | the top of ZONE_DMA never lies above the end of DRAM |
| Arm64Init.DmaZoneWindow | arch/arm64/mm/init.c:83-87 | unless the 64-bit sum wraps, ZONE_DMA ends inside the 4 GiB-aligned window that holds the start of DRAM, after that start when DRAM is not empty, and exactly at the end of DRAM when DRAM lies within that window |
| Arm64Init.HoleStep | arch/arm64/mm/init.c:114-128 | subtracting the banks one after the other in unsigned 64-bit arithmetic is subtracting their sum |
| Arm64Init.HoleBank | arch/arm64/mm/init.c:111-127 | one pass over a bank takes its pages below max_dma out of the DMA hole and its pages in [max_dma, max) out of the normal hole, so each hole stays its zone's size less what the banks so far cover; ZONE_MOVABLE's hole is untouched |
| Arm64Init.ZoneSizesInit | arch/arm64/mm/init.c:89-129 | ZONE_DMA spans [min, max_dma) and ZONE_NORMAL [max_dma, max), each with the source's unsigned subtraction, and each hole is its zone's size less what the banks below max hold in it |
| Arm64Init.PartsAreOverlaps | arch/arm64/mm/init.c:114-128 | for one bank the two branches of the loop subtract exactly its overlap with ZONE_DMA and with ZONE_NORMAL, which together are its overlap with [min, max) |
| Arm64Init.CoveredByParts | arch/arm64/mm/init.c:111-129 | for banks in address order, what the loop subtracts from each hole is the number of pages the banks hold in that zone |
| Arm64Init.CoveredBound | arch/arm64/mm/init.c:111-129 | banks in order hold at most the pages of the range, and none past the end of the last bank |
| Arm64Init.ZoneHolesExact | arch/arm64/mm/init.c:89-129 | with banks as memblock keeps them and the DMA limit inside DRAM, no subtraction wraps: each hole is its zone's pages that no bank holds, and the two holes together are the pages of [min, max) that no bank holds |
| Arm64Init.ScaledBelow | arch/arm64/mm/init.c:222-226 | scaling range by a 16-bit seed and shifting right by 16 never exceeds range - 1 |
| Arm64Init.MemstartAligned | arch/arm64/mm/init.c:190-228 | memstart_addr is aligned to ARM64_MEMSTART_ALIGN and at most the start of DRAM; without randomisation it is that start rounded down, and randomisation moves it down by no more than the spare room of the linear region |
| Arm64Init.FreeMemmap | arch/arm64/mm/init.c:283-307 | memory is freed exactly when the page-aligned interior of the memmap between the two pfns is non-empty, and what is freed is that whole interior: page-aligned bounds inside [start_pg, end_pg), each less than a page from its end of it, i.e. [PAGE_ALIGN(start_pg), end_pg & PAGE_MASK) |
| Arm64Init.FreeUnusedMemmap | arch/arm64/mm/init.c:309-347 | the ranges whose memmap is freed are exactly UnusedGaps of the banks: for each bank after the first, the pfns from the previous bank's end (aligned up to MAX_ORDER_NR_PAGES) up to the bank's start, capped at that end's section boundary, when non-empty; then the rest of the last bank's section |
| Arm64Init.MemmapStep | arch/arm64/mm/init.c:315-339 | one bank of the loop appends exactly the gap in front of that bank and moves prev_end to the bank's end aligned up to MAX_ORDER_NR_PAGES |
| Arm64Init.GapBeforeSafe | arch/arm64/mm/init.c:318-332 | the range freed in front of a bank is non-empty, above pfn 0 and, for banks in address order, holds no pfn of any bank |
| Arm64Init.InterGapsSafe | arch/arm64/mm/init.c:315-339 | the loop frees at most one range per bank, each non-empty and outside every bank when the banks are in order |
| Arm64Init.UnusedGapsSafe | arch/arm64/mm/init.c:309-347 | free_unused_memmap frees at most one range per bank plus the section tail, and for banks in address order no freed range holds a pfn of any bank, so no needed struct page is freed |
| Arm64Init.Arm64Boot.constructor | arch/arm64/mm/init.c:159 | memory_limit starts as ULLONG_MAX (no limit) |
| Arm64Init.Arm64Boot.EarlyMem | arch/arm64/mm/init.c:164-173 | a missing argument returns 1 with the limit unchanged; otherwise the limit becomes the size rounded down to a page, a page multiple within one page below the size, and 0 is returned |
| Arm64Init.Arm64Boot.MemblockInit | arch/arm64/mm/init.c:186-257 | memstart_addr and arm64_dma_phys_limit are set to the values whose properties MemstartAligned and DmaZoneWindow state |
| Arm64Init.Arm64Boot.BootmemInit | arch/arm64/mm/init.c:259-280 | min is PFN_UP of the start of DRAM and max PFN_DOWN of its end; max_pfn and max_low_pfn become max and the zones are those ZoneSizesInit builds |
| Arm64Mmu.PgdAddrEnd | arch/arm64/mm/mmu.c:325 | pgd_addr_end moves strictly forward, to the end or to the next 1 GiB boundary, whichever comes first, without leaving the slot of addr |
| Arm64Mmu.PmdAddrEnd | arch/arm64/mm/mmu.c:210 | pmd_addr_end moves strictly forward, to the end or to the next 2 MiB boundary, whichever comes first, without leaving the slot of addr |
| Arm64Mmu.PageAlign | arch/arm64/mm/mmu.c:321 | PAGE_ALIGN gives the least page multiple at or above its argument |
| Arm64Mmu.BlockWholeSlot | arch/arm64/mm/mmu.c:238-248 | use_1G_block holds exactly when addr, next and phys are 1 GiB aligned, which within one slot means the chunk is the whole 1 GiB slot |
| Arm64Mmu.SectionWholeSlot | arch/arm64/mm/mmu.c:211-212 | the section test of alloc_init_pmd holds exactly when addr, next and phys are 2 MiB aligned, which within one slot means the chunk is the whole 2 MiB slot |
| Arm64Mmu.InitPgdArith | arch/arm64/mm/mmu.c:319-323 | init_pgd's range runs from the page holding virt to the page end of virt + size; it is page aligned, non-empty and below 2^64 |
| Arm64Mmu.CoversRequest | arch/arm64/mm/mmu.c:316-328 | mapping the widened page range maps every byte of [virt, virt + size) to its own offset from phys |
| Arm64Mmu.PteInside | arch/arm64/mm/mmu.c:119-146 | after alloc_init_pte every address of [addr, end) translates to its page from pfn on, with the given attributes |
| Arm64Mmu.PteOutside | arch/arm64/mm/mmu.c:119-146 | alloc_init_pte changes no translation outside its pmd slot |
| Arm64Mmu.PteRest | arch/arm64/mm/mmu.c:119-146 | in the rest of its pmd slot alloc_init_pte keeps every translation; a section split on the way keeps its physical pages |
| Arm64Mmu.PteLevel | arch/arm64/mm/mmu.c:119-146 | alloc_init_pte maps [addr, end) and keeps every translation around it |
| Arm64Mmu.SectLevel | arch/arm64/mm/mmu.c:211-227 | writing a section at a 2 MiB aligned address maps its whole slot and changes nothing else |
| Arm64Mmu.PudPopulate | arch/arm64/mm/mmu.c:190-205 | making a pud entry a table, whether zeroed or split from a block, keeps every translation and keeps blocks aligned |
| Arm64Mmu.BlockLevel | arch/arm64/mm/mmu.c:272-289 | writing a block at a 1 GiB aligned address maps its whole slot and changes nothing else |
| Arm64Mmu.PhysToVirt | arch/arm64/mm/mmu.c:399-426 | __phys_to_virt of an address in the linear region is that address moved by PAGE_OFFSET - PHYS_OFFSET, inside the 64-bit space |
| Arm64Mmu.MapsLinear | arch/arm64/mm/mmu.c:399-426 | a range mapped at its linear-map address is linear |
| Arm64Mmu.LinearKeep | arch/arm64/mm/mmu.c:409-427 | a further linear mapping keeps what was linear linear, whatever attributes it uses |
| Arm64Mmu.LinearCover | arch/arm64/mm/mmu.c:409-427 | the part before the text, the text and the part after it together cover the whole bank |
| Arm64Mmu.SectionCleared | arch/arm64/mm/mmu.c:857-863 | clearing a section removes exactly the translations of its 2 MiB slot, all of which existed before |
| Arm64Mmu.BlockCleared | arch/arm64/mm/mmu.c:849-855 | clearing a block removes exactly the translations of its 1 GiB slot, all of which existed before |
| Arm64Mmu.Int32 | arch/arm64/mm/mmu.c:796 | storing a u32 through an int keeps its value modulo 2^32 and lands in the int range |
| Arm64Mmu.FdtNegativeSizeAccepted | arch/arm64/mm/mmu.c:800-806 | a header whose totalsize is 0x8000_0000 passes the size check with a negative size, and for every offset within the first 2 MiB block, offset plus that size read as a 64-bit unsigned value exceeds SWAPPER_BLOCK_SIZE, so the second mapping is attempted |
| Arm64Mmu.FdtSize | arch/arm64/mm/mmu.c:800-801 | a blob is accepted exactly when its totalsize is at most MAX_FDT_SIZE, with that size |
| Arm64Mmu.FdtSizeAgrees | arch/arm64/mm/mmu.c:800-801 | for every totalsize below 2^31 the check as written and the unsigned check agree |
| Arm64Mmu.BlockAlign | arch/arm64/mm/mmu.c:806 | round_up to SWAPPER_BLOCK_SIZE gives the least 2 MiB multiple at or above its argument |
| Arm64Mmu.FdtFitsSlot | arch/arm64/mm/mmu.c:800-806 | an accepted blob, wherever it starts within its 2 MiB block, fits in the two blocks of the FDT fixmap slot |
| Arm64Mmu.PageTable.FreshPtes | arch/arm64/mm/mmu.c:74-99 | the page early_pgtable_alloc hands out as a pte table is zeroed: its 512 entries are empty and nothing else changes |
| Arm64Mmu.PageTable.FreshPmds | arch/arm64/mm/mmu.c:74-99 | the page early_pgtable_alloc hands out as a pmd table is zeroed: its 512 entries are empty and nothing else changes |
| Arm64Mmu.PageTable.SplitPmd | arch/arm64/mm/mmu.c:104-117 | the 512 ptes of the new table map the section's pages in order, with PAGE_KERNEL_EXEC |
| Arm64Mmu.PageTable.SplitPud | arch/arm64/mm/mmu.c:148-158 | the 512 pmds of the new table are sections at 2 MiB steps from the block's address, with the block's own attributes |
| Arm64Mmu.PageTable.PmdSetHuge | arch/arm64/mm/mmu.c:842-847 | the pmd entry becomes a section, 1 is returned, and an address not 2 MiB aligned is a BUG |
| Arm64Mmu.PageTable.PudSetHuge | arch/arm64/mm/mmu.c:835-840 | the pud entry becomes a block, 1 is returned, and an address not 1 GiB aligned is a BUG |
| Arm64Mmu.PageTable.PmdClearHuge | arch/arm64/mm/mmu.c:857-863 | a section is cleared and 1 returned; any other entry is left alone and 0 returned |
| Arm64Mmu.PageTable.PudClearHuge | arch/arm64/mm/mmu.c:849-855 | a block is cleared and 1 returned; any other entry is left alone and 0 returned |
| Arm64Mmu.PageTable.AllocInitPte | arch/arm64/mm/mmu.c:119-146 | an empty or section pmd entry gets a new pte table, with the section's pages split into it; the range's ptes then map pfn on; a missing allocator where a table is needed is the BUG |
| Arm64Mmu.PageTable.PmdStep | arch/arm64/mm/mmu.c:209-231 | one pass of alloc_init_pmd maps its chunk, as a section when that is allowed and aligned and as pages otherwise, and keeps every other translation |
| Arm64Mmu.PageTable.PopulatePud | arch/arm64/mm/mmu.c:190-206 | an empty pud entry gets a zeroed pmd table and a block gets the table split_pud fills; a table entry is kept; a missing allocator where a table is needed is the BUG |
| Arm64Mmu.PageTable.PmdChunk | arch/arm64/mm/mmu.c:209-233 | one pass of the do-while loop extends the mapped prefix of [addr, end) to next and keeps phys page aligned |
| Arm64Mmu.PageTable.AllocInitPmd | arch/arm64/mm/mmu.c:180-236 | alloc_init_pmd maps [addr, end) to phys on within its pud slot and keeps every other translation, apart from the attributes of split sections |
| Arm64Mmu.PageTable.AllocInitPud | arch/arm64/mm/mmu.c:250-300 | alloc_init_pud maps [addr, end) to phys on, as a 1 GiB block when use_1G_block and block_mappings_allowed permit and through alloc_init_pmd otherwise, and keeps every other translation |
| Arm64Mmu.PageTable.PgdChunk | arch/arm64/mm/mmu.c:324-328 | one pass of init_pgd's loop extends the mapped prefix of the range to next and keeps phys page aligned |
| Arm64Mmu.PageTable.InitPgd | arch/arm64/mm/mmu.c:306-329 | a page offset mismatch between phys and virt maps nothing; otherwise the widened page range is mapped, every byte of [virt, virt + size) leads to its offset from phys, and every other translation keeps its physical address |
| Arm64Mmu.PageTable.CreateMappingNoalloc | arch/arm64/mm/mmu.c:354-364 | a mapping below VMALLOC_START changes nothing; otherwise it is init_pgd without an allocator |
| Arm64Mmu.PageTable.CreateMappingLate | arch/arm64/mm/mmu.c:374-385 | a mapping below VMALLOC_START changes nothing; otherwise it is init_pgd with the page allocator, which never hits the BUG |
| Arm64Mmu.PageTable.MapLinear | arch/arm64/mm/mmu.c:341-347 | __create_pgd_mapping of a physical range at its linear address with early_pgtable_alloc maps it there and is itself a linear mapping |
| Arm64Mmu.PageTable.MapMemblock | arch/arm64/mm/mmu.c:387-429 | the whole bank becomes linear; a bank clear of the kernel text is mapped PAGE_KERNEL; otherwise the text ends up mapped read-only and, for page-aligned text bounds, the parts before and after it keep their linear pages as PAGE_KERNEL (or PAGE_KERNEL_EXEC where a section was split) |
| Arm64Mmu.PageTable.MapBesideText | arch/arm64/mm/mmu.c:409-418 | for a bank overlapping the text, the parts before and after it are mapped PAGE_KERNEL at their linear addresses; mapping the part after keeps the part before |
| Arm64Mmu.PageTable.MapTextRo | arch/arm64/mm/mmu.c:420-428 | the text's linear alias is mapped read-only, the parts beside it keep their linear PAGE_KERNEL pages, and the whole bank is linear |
| Arm64Mmu.PageTable.FixmapRemapFdt | arch/arm64/mm/mmu.c:758-809 | a NULL or misaligned address returns NULL with nothing mapped; otherwise NULL exactly for a bad header or an oversized blob; on success the result is the slot base plus the offset in the 2 MiB block, and the whole blob is mapped there |
| Arm64Mmu.PageTable.MapFdtRest | arch/arm64/mm/mmu.c:804-808 | with the first 2 MiB block of the slot mapped, an accepted blob that runs past it is mapped again with its rounded length; either way the whole blob [dt_virt, dt_virt + size) is then mapped to its physical pages |

## Left out

- Constants from headers outside this model are taken from Linux 4.6 for arm64. They are:
  - the `cpuhp_state` values (OFFLINE 0 up to ONLINE 43, with AP_ONLINE_DYN 12 and 30 dynamic slots);
  - the CLONE_* bits, SIGCHLD, the PTRACE_EVENT_* numbers and the errno values;
  - 4 KiB pages, 39-bit virtual addresses, ARM64_MEMSTART_ALIGN 1 GiB, PAGES_PER_SECTION 2^18 and MAX_ORDER 11;
  - a 64-byte struct page, THREAD_SIZE 16 KiB, and three zones of which ZONE_MOVABLE stays empty.
- Locking, preemption, RCU, interrupts and memory barriers are not modelled. Every operation runs alone.
- Hotplug: waking the hotplug thread and waiting for it is one synchronous call.
- Hotplug: the CPU notifier chains, sysfs, the smpboot threads and the architecture's `__cpu_up` / `__cpu_die` are not modelled. `bringup_cpu` and `takedown_cpu` are opaque callbacks; the AP-side states are not advanced inside them.
- Hotplug: the present and online masks are sets fixed when the machine is built (`const` fields). `init_cpu_present`, `init_cpu_online` and `boot_cpu_init` (`kernel/cpu.c:1709-1739`) set them at boot and are not modelled; the architecture's `__cpu_up` and `__cpu_disable`, which set a CPU online or offline, are not part of this model.
- Hotplug.Machine.RemoveState: the source's `BUG_ON(cpuhp_cb_check(state))` is a precondition.
- Slab: the allocator behind `kmem_cache_alloc`, `kmalloc` and `ksize` is not part of this model. Whether an allocation succeeds, and how much it grants, is an oracle indexed by the attempt.
- SlabCaches.SlabState.FindMergeable: `ALIGN(size, align)` and the test `(s->size & ~(align - 1)) == s->size` are modelled as rounding up to a multiple of the alignment and as divisibility by it. They agree only for a power-of-two alignment. A caller's alignment such as 24 gives other results in the source: `ALIGN(8, 24)` is 8, and a 48-byte cache fails the mask test.
- SlabCaches.Mergeable: the same divisibility reading of the mask test as FindMergeable, exact only for a power-of-two alignment.
- Slab: memcg caches, sysfs and `kmem_cache_flags` (the identity without SLUB debugging) are not modelled.
- SlabCaches.CalculateAlignment: with SLAB_HWCACHE_ALIGN it requires a non-zero size. No caller passes 0, and the source's halving loop would not stop for 0.
- Vmemmap: the page allocator and `vmemmap_alloc_block` are oracles. The section-mapped `vmemmap_populate` of `arch/arm64/mm/mmu.c` is not modelled; `vmemmap_populate_basepages` stands for it.
- Vmemmap.Altmap.Alloc: requires nr_pfns > 0. For 0 the source's lowest-set-bit computation is undefined.
- Vmemmap.Tables.PopulateNode: requires no buffer to be set on entry, as at boot.
- EarlyIoremap: the late fixmap path (after `early_ioremap_reset`) and the WARN messages are not modelled. The fixmap is a map from index to physical page.
- EarlyIoremap.Ioremap.Map: checks the full page count against NR_FIX_BTMAPS, the corrected check of the second Findings row. The source's `unsigned int nrpages` truncates the count to 32 bits first; EarlyIoremap.MapPagesTruncated exhibits what that lets through.
- EarlyIoremap.Ioremap.MapSlot: maps the full page count, as Map checks it, not the truncated count of the source (second Findings row).
- EarlyIoremap.Ioremap.CopyFromEarlyMem: requires a free slot (the kernel would dereference NULL otherwise). It also requires the destination array to be distinct from the model's own arrays.
- PercpuVm: the page allocator and the page-table extension of `map_kernel_range_noflush` are oracles. TLB and cache flushes are not modelled.
- PercpuVm.PcpuVm.MapPages: a unit whose mapping fails is taken to map nothing. Its error is taken as -ENOMEM.
- PercpuVm.PcpuVm.MapRow: a failing `map_kernel_range_noflush` is taken to install no pte. In the source it installs ptes one at a time and can stop part-way (a failed pte table allocation), so the failing unit may keep a partial mapping; the err path of `pcpu_map_pages` (`mm/percpu-vm.c:238-245`) unmaps only the units before it.
- PercpuVm.PcpuVm.Populate: its failure clause (area and live pages as they were) rests on MapRow's abstraction. In the source the failing unit's partial mapping stays in place while `pcpu_populate_chunk` (`mm/percpu-vm.c:297-299`) frees its pages, so those pages can still be mapped after they are freed.
- PercpuVm.PcpuVm.Depopulate: requires the pages array to exist. The source's BUG_ON guarantees this.
- PercpuVm: the WARN_ONs of `pcpu_free_pages` and `pcpu_unmap_pages` are not modelled.
- Fork: what `copy_process` copies (memory, files, credentials, signals, namespaces, cgroups) is reduced to which of its resources a call holds. Whether each copy succeeds is an oracle.
- Fork: the signal struct's `nr_threads` and `live` counts, `pid_vnr` and the return of the new pid from `_do_fork` are not modelled.
- Fork: `nr_processes`'s int sum is unbounded in the model.
- Fork.Forker.CopyProcess: the identity is computed only on success. The state of a half-built task is not modelled.
- Arm64Init: `memblock` and `memparse` are not part of this model. The DRAM bounds, the list of banks and the memmap address of each pfn are parameters.
- Arm64Init: `free_memmap` exists only without CONFIG_SPARSEMEM_VMEMMAP, which is the configuration modelled. `high_memory` and `mem_init` are not modelled.
- Arm64Init.Arm64Boot.MemblockInit: the `memblock_remove`, memory-limit and `memblock_add` calls of `arm64_memblock_init` are not modelled. Both computations use one pair of DRAM bounds, the ones memblock reports after those calls. The source rounds the start down before the calls.
- Arm64Mmu: page-table attributes (pgprot) are abstract values. The OR-alignment tests `((addr | next | phys) & ~mask) == 0` are written as three divisibility tests, which they equal for these masks.
- Arm64Mmu.PageTable.MapMemblock: the parts beside the text are proved to keep their pages with PAGE_KERNEL or PAGE_KERNEL_EXEC, not PAGE_KERNEL alone. The model's page-table walk lets a section split turn its other pages into PAGE_KERNEL_EXEC, as `split_pmd` does. In the source no split happens here, because mapping the parts beside the text has already turned the slots next to it into tables. The model does not track which slots are tables.
- Arm64Mmu: `memblock_free` of replaced tables, TLB flushes, the fixmap set and clear of table pages, and the `pgd_bad` / `pud_bad` / `pmd_bad` BUG_ONs are not modelled.
- Arm64Mmu.PageTable.InitPgd: requires the range to lie below 2^64 and not to be a zero size at a page-aligned address. For that input the source does not map nothing: `end` equals `addr`, but the do-while of `init_pgd` (`arch/arm64/mm/mmu.c:324-328`) runs once anyway, mapping a whole block or section, or running the pte do-while (`arch/arm64/mm/mmu.c:140-143`) until the address wraps. No caller in the source passes a zero size; the model does not capture what that call would do.
- Arm64Mmu.PageTable.FixmapRemapFdt: reads the blob size as the unsigned `fdt_totalsize` (Arm64Mmu.FdtSize), the corrected check of the third Findings row. The source stores it through an `int *` and compares it signed; Arm64Mmu.FdtNegativeSizeAccepted exhibits the size that check lets through.
- Arm64Mmu: `create_pgd_mapping` for other address spaces, `map_mem`, `map_kernel`, `paging_init`, `kern_addr_valid`, the fixmap initialisation and `vmemmap_populate` are not modelled.
- Arm64Mmu: the `memblock_reserve` that `fixmap_remap_fdt` makes after a successful remap is not modelled.
- CpuOps: the device tree and ACPI reads behind the enable method are a parameter.

## Findings

| source | as written | input that shows it | evidently intended | confidence | as-written member | corrected member |
|---|---|---|---|---|---|---|
| mm/slab_common.c:946-1009 | with KMALLOC_MIN_SIZE 256 (allowed by the BUILD_BUG_ON), the fix-ups for 72..96 bytes run after the minimum-size loop and send them to cache 7, but `create_kmalloc_caches` starts at KMALLOC_SHIFT_LOW = 8 and never creates cache 7 | `kmalloc(80)` with KMALLOC_MIN_SIZE 256 picks `kmalloc_caches[7]`, which is NULL | sizes below KMALLOC_MIN_SIZE always use cache KMALLOC_SHIFT_LOW, whatever the later fix-ups say | medium; not executed | KmallocIndex.PatchedMissingCache | KmallocIndex.FixedCachesExist |
| mm/early_ioremap.c:102-136 | `nrpages` is an unsigned int, so the page count is truncated to 32 bits before it is checked against NR_FIX_BTMAPS | `__early_ioremap(0, 2^44 + 1, ..)` counts 1 page, passes the check and maps one page for the whole request | the full page count is checked, and such a request returns NULL | medium; not executed | EarlyIoremap.MapPagesTruncated | EarlyIoremap.MapPagesCover |
| arch/arm64/mm/mmu.c:800-806 | the u32 `fdt_totalsize` is stored through an `int *size` and compared signed with MAX_FDT_SIZE | a blob header with totalsize 0x8000_0000 is accepted with size -2^31; the unsigned test against SWAPPER_BLOCK_SIZE then maps a second chunk of huge rounded length, and `fixmap_remap_fdt` reserves a huge unsigned length | sizes above MAX_FDT_SIZE are refused; an accepted blob fits in the two 2 MiB blocks of its slot | medium; not executed | Arm64Mmu.FdtNegativeSizeAccepted | Arm64Mmu.FdtSize |
