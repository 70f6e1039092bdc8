# A verified model of the Jailhouse hypervisor's core

Jailhouse partitions a machine: a small hypervisor moves CPUs, memory and devices from the root cell (the Linux that
loads it) to other cells and keeps them apart. This project models the stateful parts on which that rests, in Dafny,
and proves what they promise for all inputs, all failures and all interleavings. Nothing in it is executed.

## What is modelled

**Page pool and page tables** (`Pool`, `PageTree` to `PageRuns`, `Paging`, `PageFaults`, `X86Entry`, `X86Decode`). The
pool is the bitmap allocator over 64-bit words. A page table tree is a memory of tables with decoded entries; the
methods of `Paging.PageTables` are the loops of `hypervisor/paging.c`, walking down, splitting, mapping, unmapping and
walking up. A geometry has any number of levels and either only 4 KiB pages or also 2 MiB pages. Ghost state records
which table hangs where; the invariant `Good` says that every table is reached through exactly one entry, is in use, and
that free pages are blank. With 4 KiB pages, any sequence of operations refines a map from page numbers, and the pool's
counter changes by exactly the tables added and released. With 2 MiB pages, the loops are not always exact, and the
conditions are proved in both directions. A split redirects the other pages of a 2 MiB page if and only if that lies at
or above 4 GiB, so a mapping changes something outside its range if and only if it runs into such a page in part
(`PageOver`). A round of unmapping that starts off a block boundary is exact if and only if it steps over a hole with
nothing mapped behind it. A 2 MiB entry is written into a live table if and only if that table has another entry or is
the root; otherwise the table has just been released. If the table was new, first fit hands out the same pages in the
next round, and the entry comes back if the next block belongs to the same table (`PageFresh`). `PageFaults` has runs of
the modelled code that report success in the other cases: a block that is not mapped, a page that stays mapped, a page
that moves, and an entry outside the range. As long as no 2 MiB entry is lost, calls on other ranges, whatever they
split or clear, do not disturb a range that was mapped as a whole, and it can always be unmapped again. `X86Entry` has
the entry accessors on 64-bit words, and `X86Decode` proves that they do to words what the tree model does to decoded
entries: written pages and links decode to the model's entries (`DecodeSetL1`, `DecodeSetL2`, `DecodeSetNext`), reading
a 4 KiB entry stays in its frame (`PhysOfL1`), and the table indices of an address are the path of its page.

**Cells** (`CpuSets`, `Regions`, `Layers`, `CellMemory`, `CellBook`, `Isolation`, `Cells`). The management hypercalls of
`hypervisor/control.c`, with every error return and rollback. The root cell's CPU mappings and DMA mappings are maps
from pages, which `Layers` ties to the page tables; every page table operation may stop half-way at a point that an
arbitrary function chooses. Over any sequence of commands the CPUs stay partitioned and ids and names stay unique; and
as long as new cells get memory that is free, a guest page of the root cell leads to physical memory of another cell
only while that cell and that region are loadable. The code does not check that the memory is free; `MayAddIff` is a
test for it, and `GivenIsolatedIff` with its three cases says what a destruction, a rollback or making a cell loadable
exposes otherwise. For DMA isolation needs that the region has DMA access, because unmapping looks at the flags of the
cell's region; `DmaClosedIff` is the exact statement and `DmaLeft` a run. The set of suspended CPUs is part of the
state: no command leaves a CPU of the root cell suspended, but a start that fails on memory leaves the CPUs of its cell
suspended, and the rollback of a creation parks CPUs that were released before.

**Protocols between CPUs** (`StopProtocol`, `Startup`, `ShutdownVote`, `TicketLock`). State machines over the steps of
all CPUs, in any order, at the granularity of single accesses to shared variables where locks do not protect them. In
`StopProtocol` CPUs are suspended, resumed, parked and reset at any time; what a caller can rely on is `Suspended`, a
call that has returned and did not start in the exposed window.

**Interrupt queue** (`PendingIrq`, `Injection`). The doubly linked list through an array of slots, the list registers
of the GIC (chapter 5 of the ARM GICv2 specification, IHI 0048), and the injection loop while other CPUs insert.

**VT-d tables** (`Vtd`) after sections 9.1 and 9.3 of the Intel VT-d specification; the domain field gives back a cell
id if and only if it has sixteen bits (`DomainReadsBack`).

**Number printing** of the console with its 64-bit division for 32-bit builds (`Division`, `NumberFormat`, `HexFormat`).

`Arithmetic`, `Options` and `Counting` are small helpers.

## Assumptions

- Clocks, caches, interrupts and hardware registers are left out; invalidations are events that clear a ghost flag.
- Results of calls outside the model (page allocations in `Vtd`, a cell's own mappings, answers of cells) are parameters.
- `Cells`: the root configuration maps 1:1, and the root cell's first mappings lead to themselves or to pages of the
  hypervisor; the code checks neither.
- `Cells`, `CellMemory`, `Regions`: an operation on the root cell's tables is exact, up to the page where it stops.
  `Layers.Apply` proves this of the page tables with 4 KiB pages, and with 2 MiB pages under the conditions `MapOk` and
  `Clean`, which include that a page to be split lies below 4 GiB. Above, the code does not keep what `Serve` states:
  unmapping part of a 2 MiB page there redirects the root cell's other pages (`PageFaults.NeighbourMovesIff`,
  `PageFaults.MovePage`).
- `Startup`: there are fewer than 2^32 CPUs, and none has the id that stands for "no master yet".
- `Injection`: interrupt ids have ten bits, as in the GIC. What happens beyond is `PendingIrq.InjectUniqueIff`.

Where the code and its comments differ, the code is modelled. The comment at `hypervisor/control.c:280-281` (unmapping
a region that was mapped as a whole cannot fail) is proved as `PageRuns.UnmapWhole`. The comment at
`hypervisor/arch/arm/irqchip.c:166-174` (late writes to the next pointer are harmless) is part of `Injection.NeverLost`.

## Model

| member | source | states |
|---|---|---|
| `Pool.PagePool.FindNextFree` | hypervisor/paging.c:42-71 | the lowest free page from `start` on within the full bitmap words, or none only if all of them are used |
| `Pool.PagePool.FindRun` | hypervisor/paging.c:73-94 | the search with its restarts ends, finds the lowest run of free pages, and fails only if there is none |
| `Pool.PagePool.Alloc` | hypervisor/paging.c:73-100 | first fit and complete over the full words: exactly the lowest run is marked, the counter stays the number of set bits, failure changes nothing |
| `Pool.PagePool.Free` | hypervisor/paging.c:102-117 | exactly the pages are released; a null address frees nothing |
| `Pool.PagePool.AllocFree` | hypervisor/paging.c:73-117 | freeing undoes allocating: same used pages, same counter |
| `PageTree.SetLeaf` | hypervisor/arch/x86/paging.c:81-91 | writing a terminal entry keeps the tree well-formed and changes no translation outside the addresses below the entry |
| `PageTree.Grow` | hypervisor/paging.c:205-214 | hanging a blank table into a hole of the tree changes no translation |
| `PageTree.Prune` | hypervisor/paging.c:268-277 | taking an empty table out changes no translation and leaves a well-formed tree |
| `PageTree.ForeignWrite` | hypervisor/paging.c:197-201 | writing to a page that is no table of the tree changes no translation |
| `Paging.PageTables.Virt2Phys` | hypervisor/paging.c:119-137 | the walk over the tables computes the translation that the tree defines, holes included |
| `Paging.PageTables.SplitHuge` | hypervisor/paging.c:145-170 | a table entry is left alone; a 2 MiB page becomes a table of 4 KiB pages, or without memory nothing changes |
| `PageRounds.SplitPreserves` | hypervisor/paging.c:145-170 | a split keeps every translation of the whole tree if and only if the 2 MiB page lies below 4 GiB, because its mask has 32 bits |
| `Paging.PageTables.ClearUp` | hypervisor/paging.c:266-277 | clearing an entry and releasing the tables that became empty unmaps exactly what the entry covered |
| `Paging.PageTables.AllocTable` | hypervisor/paging.c:73-100 | the lowest free page, and none only if every page is used |
| `Paging.PageTables.UnmapRound` | hypervisor/paging.c:236-285 | one round, for any tree: what is unmapped, how far it steps, what a split does to the other pages of its block, that only a full pool makes it fail, and that then nothing changed |
| `Paging.PageTables.Destroy` | hypervisor/paging.c:232-287 | on any range a chain of such rounds, which ends early only with a full pool, and outside the range only pages of 2 MiB pages that it runs into change; on a clean range exactly the range is unmapped, or exactly a prefix; without splits it never fails and adds no table |
| `PageOver.RoundsWork` | hypervisor/paging.c:232-287 | that about the pages outside, for every tree and every chain of rounds |
| `PageFaults.RoundExactIff` | hypervisor/paging.c:253-285 | a round over a 2 MiB entry unmaps exactly the pages of the range it steps over if and only if it starts at the block, or the entry is a hole and nothing is mapped behind the block |
| `PageFaults.SkipPage` | hypervisor/paging.c:232-287 | a run: unmapping 512 pages from page 1 on reports success and leaves page 512 mapped |
| `PageFaults.NeighbourMovesIff` | hypervisor/paging.c:145-170 | unmapping one page of a 2 MiB page leads each other page of it to its address without the upper half, which differs if and only if the page lies at or above 4 GiB |
| `PageFaults.MovePage` | hypervisor/paging.c:145-170 | a run: after a 2 MiB page at 4 GiB was mapped and its last page unmapped, the first page leads to address 0 |
| `Paging.PageTables.MapRound` | hypervisor/paging.c:180-226 | one round, for any tree: a 4 KiB page is mapped, and other pages change only as far as a 2 MiB page was split; a 2 MiB page is mapped exactly, with a 2 MiB entry, if its table has another entry or is the root, and is lost otherwise; only a full pool makes it fail. If an entry was lost before and its page is next in turn, it comes back with its table |
| `PageCreate.BlockLost` | hypervisor/paging.c:186-204 | in the other case the entry ends up in a free page: the table was released with the old mapping, and the range is unmapped |
| `PageFaults.LoseBlock` | hypervisor/paging.c:180-226 | a run: mapping the first 2 MiB page of a new three-level tree reports success and is lost |
| `PageFresh.SameTables` | hypervisor/paging.c:186-204 | if the table was new, releasing it leaves the tables and the pages in use as they were before the round |
| `PageFresh.FirstFit` | hypervisor/paging.c:73-100 | of the pages that become tables on a walk, first fit makes exactly the one with the right number of free pages below it the last table |
| `PageFresh.ComesBack` | hypervisor/paging.c:205-214 | a page with a lost entry that becomes a table of 2 MiB entries again maps exactly the block of that entry |
| `PageFaults.ForeignBlock` | hypervisor/paging.c:180-226 | a run: two 2 MiB pages across a 1 GiB boundary in a new tree; the first is not mapped, and its entry maps a block outside the range |
| `PageCreate.MapOkAnchored` | hypervisor/paging.c:186-204 | if the condition on the range held before the mapping, each 2 MiB page finds its table anchored, or missing with another 2 MiB page to follow, when its turn comes, whatever was mapped before it |
| `Paging.PageTables.Create` | hypervisor/paging.c:172-230 | the whole range maps to consecutive pages with the flags, and other pages change only as far as 2 MiB pages were split; nothing else changes if those lie below 4 GiB; on -ENOMEM, only with a full pool, exactly a prefix is mapped |
| `PageOver.MapExactIff` | hypervisor/paging.c:172-230 | a mapping changes nothing outside its range if and only if every 2 MiB page that it covers only in part lies below 4 GiB |
| `PageRuns.Perform` | hypervisor/paging.c:172-287 | one operation that is exact on the tree, always with 4 KiB pages, is the update of a map from page numbers, up to the point it reached |
| `PageRuns.Churn` | hypervisor/paging.c:102-287 | any sequence of operations with 4 KiB pages, failures included, refines the map; the tree stays well-formed, other pages untouched, and used_pages changes by tables added minus tables released |
| `PageRuns.UsedCount` | hypervisor/paging.c:102-117 | the counter follows the number of tables of the tree |
| `PageRuns.WholeKept` | hypervisor/paging.c:172-287 | any unmapping of a disjoint range, and any mapping that loses no 2 MiB page, finished or failed, keeps a range mapped as a whole |
| `PageRuns.WholeOverWork` | hypervisor/paging.c:172-287 | so does any sequence of them |
| `PageRuns.UnmapWhole` | hypervisor/control.c:278-283 | unmapping a range mapped as a whole never fails, never splits, takes no page from the pool and unmaps exactly the range |
| `PageRuns.WholeLife` | hypervisor/control.c:278-283 | a range that a call has mapped is, after any such calls on other ranges, whatever they split or clear, still mapped as a whole, and unmapping it needs no split |
| `PageRuns.MapOkKept` | hypervisor/paging.c:186-204 | mapping one range keeps the conditions for mapping another |
| `PageRuns.MapWorkUnmap` | hypervisor/control.c:278-283 | mapping a range, any other such call on a disjoint range, unmapping the first: that never fails, adds no table and unmaps exactly the range; after two exact mappings every translation is what it was before but for what the second call mapped |
| `X86Entry.HugePageReadsBack` | hypervisor/arch/x86/paging.c:81-107 | a 2 MiB entry gives back address, offset and flags |
| `X86Decode.PhysOfL2` | hypervisor/arch/x86/paging.c:101-107 | the address read from a 2 MiB entry lies in the page of the block that has the number of the virtual page |
| `X86Decode.IndicesArePath` | hypervisor/arch/x86/paging.c:51-73 | the four shifted and masked indices of an address are the path of its page number |
| `X86Decode.SplitDecodes` | hypervisor/paging.c:155-169 | the words that a split writes decode to the entries that the tree model writes, 32-bit mask included |
| `X86Entry.PageTableEmpty` | hypervisor/arch/x86/paging.c:40-49 | true if and only if no entry is valid |
| `CpuSets.NextCpu` | hypervisor/control.c:36-43 | the least member above the given one, other than the exception, or one past the end |
| `CpuSets.MembersAre` | hypervisor/include/jailhouse/control.h:25-35 | the walk meets every member once, in ascending order, and nothing else |
| `Regions.OverlapExact` | hypervisor/control.c:213-236 | the computed overlap is the intersection of the two regions, with the root region's address offset and flags |
| `Regions.ConfiguredIs` | hypervisor/setup.c:153-157 | what the root configuration says of a page is what the last region says that covers it, for DMA the last one with DMA access, and nothing if there is none |
| `Layers.Apply` | hypervisor/arch/x86/vmx.c:322-346 | a tree that represents a map of pages represents, after an operation that is exact on it, the map with the operation applied, wholly or up to the page where it failed |
| `Regions.RootMemory.VmxMap` | hypervisor/arch/x86/vmx.c:322-339 | the region is mapped, or exactly a prefix of it |
| `Regions.RootMemory.VmxUnmap` | hypervisor/arch/x86/vmx.c:341-346 | the region is unmapped, or exactly a prefix of it |
| `Regions.RootMemory.ArchMap` | hypervisor/arch/x86/control.c:64-76 | both halves on success; on failure how far each half got, with the rollback of the first, which may itself stop |
| `Regions.RootMemory.ArchUnmap` | hypervisor/arch/x86/control.c:78-88 | the same for unmapping |
| `Regions.RootMemory.VtdMap` | hypervisor/arch/x86/vtd.c:368-388 | only a region with DMA access is mapped for devices, or exactly a prefix of it |
| `Regions.RootMemory.VtdUnmap` | hypervisor/arch/x86/vtd.c:390-402 | only a region with DMA access is unmapped for devices, or exactly a prefix of it |
| `Regions.RootMemory.UnmapFromRoot` | hypervisor/control.c:209-220 | pages of the region at their physical addresses are gone on success, gone or as before on failure; DMA is untouched if the region has no DMA access |
| `Regions.RootMemory.MapConfig` | hypervisor/setup.c:153-157 | a page gets what the last region of the configuration that covers it says |
| `Regions.RootMemory.RemapToRoot` | hypervisor/control.c:222-261 | pages outside the region are as before; unless the loop is aborted, each page inside has what the last root region says that covers it, wherever that one did not fail; without failure, also what it had if no root region covers it; with failures it is as before, unmapped, or as some root region says |
| `CellMemory.TakeMemory` | hypervisor/control.c:396-411 | all private pages of the cell are taken from the root cell, or on failure only pages of the cell changed |
| `CellMemory.GiveMemory` | hypervisor/control.c:278-286 | all private pages go back to what the configuration says; a failure stops nothing: each page still gets what the last root region says, unless the failure was there, and only pages of the cell change; nothing fails without cause |
| `CellMemory.TakeLoadable` | hypervisor/control.c:499-507 | the same for loadable regions at a start |
| `CellMemory.GiveLoadable` | hypervisor/control.c:553-560 | the same for loadable regions before loading |
| `CellMemory.DmaRestoredIff` | hypervisor/control.c:278-286 | the exact condition for DMA |
| `CellBook.FreeId` | hypervisor/control.c:131-144 | the search ends with the least unused id, which is at most the number of cells |
| `CellBook.Partition` | hypervisor/control.c:362-390 | every CPU belongs to exactly one cell |
| `CellBook.CreatedOk` | hypervisor/control.c:381-390 | creation keeps the partition, per_cpu.cell and the uniqueness of ids and names |
| `CellBook.DestroyedOk` | hypervisor/control.c:269-276 | so does destruction |
| `CellBook.CpusRestored` | hypervisor/control.c:269-276 | giving the CPUs back right after taking them restores the root set and per_cpu.cell |
| `CellBook.BookRestored` | hypervisor/control.c:572-599 | destruction undoes creation |
| `Isolation.NewIsolated` | hypervisor/control.c:396-411 | after its memory was taken, a new cell is isolated, and the others still are |
| `Isolation.StartIsolated` | hypervisor/control.c:499-512 | a started cell's loadable pages are hidden, so the cell need not count as loadable |
| `Isolation.LoadIsolated` | hypervisor/control.c:547-560 | giving loadable regions to the root cell exposes nothing else |
| `Isolation.RolledBack` | hypervisor/control.c:433-436 | a failed creation leaves the other cells isolated |
| `Isolation.GoneIsolated` | hypervisor/control.c:572-599 | destruction leaves the other cells isolated if all are disjoint |
| `Isolation.GivenIsolatedIff` | hypervisor/control.c:222-261 | if cells overlap: giving regions to the root cell leaves the cells isolated if and only if every page that it gets and that is also theirs is loadable there |
| `Isolation.GoneIsolatedIff` | hypervisor/control.c:572-599 | the case of a destruction, about the other cells |
| `Isolation.RolledBackIff` | hypervisor/control.c:433-436 | the case of the rollback of a creation, whatever of its memory was taken |
| `Isolation.LoadIsolatedIff` | hypervisor/control.c:547-560 | the case of a cell made loadable, whose own regions may overlap too |
| `Isolation.MayAddIff` | hypervisor/control.c:396-411 | what the code takes for granted of a new cell's memory, as a test: it holds if and only if the cells with the new one are disjoint and none has a page of the hypervisor |
| `Isolation.IsolatedRegion` | hypervisor/control.c:396-411 | isolation of cells said of physical pages: a guest page that leads into a single region of a cell |
| `Isolation.DmaClosedIff` | hypervisor/control.c:209-220 | a page is closed to the root cell's devices if and only if the cell's region has DMA access or it was closed before |
| `Cells.DmaLeft` | hypervisor/control.c:209-220 | a run: a created cell's page that the root cell's CPUs have lost and its devices still reach |
| `Isolation.GiveRootOnly` | hypervisor/control.c:222-261 | whatever fails, the root cell never gets a mapping outside its configuration |
| `Cells.Manager.Suspend` | hypervisor/control.c:54-60 | exactly the CPUs of the cell other than the caller are added to the suspended ones |
| `Cells.Manager.Resume` | hypervisor/control.c:62-68 | exactly the CPUs of the root cell other than the caller go on |
| `Cells.Manager.Release` | hypervisor/control.c:518-545 | exactly the CPUs of the cell go on, with the request, park or reset, as their last; those that were not suspended are recorded |
| `Cells.Manager.TakeCpus` | hypervisor/control.c:384-390 | exactly the CPUs of the set change hands, and each is asked to park |
| `Cells.Manager.GiveCpus` | hypervisor/control.c:269-276 | exactly the CPUs of the set go back, and each is asked to park |
| `Cells.Manager.CanTake` | hypervisor/control.c:369-379 | true if and only if the root cell's set contains the new set |
| `Cells.Manager.Admit` | hypervisor/control.c:310-382 | the error for every way a creation can be refused, in the order of the code, over the cells, names and CPU sets themselves |
| `Cells.Manager.Create` | hypervisor/control.c:293-444 | unless all demands are met (caller and CPU sets, name, configuration, memory) an error and no change; then exactly the new CPUs are asked to park; a failure, which needs that an operation fails, restores CPUs, cells and ids; success takes the least id, the CPUs and all private pages; the caller stays in the root cell; nobody stays suspended; the invariants hold in each case, separation if the memory passes the test; only the rollback parks CPUs that are not suspended |
| `Cells.Manager.CreateCell` | hypervisor/control.c:384-436 | the part that changes state, with its rollback |
| `Cells.Manager.DestroyInternal` | hypervisor/control.c:263-291 | CPUs and memory go back to the root cell; the CPUs are parked |
| `Cells.Manager.Prologue` | hypervisor/control.c:452-487 | the error for every way a command can be refused, with nobody suspended, or the cell, with its CPUs and the root cell's suspended |
| `Cells.Manager.StartCell` | hypervisor/control.c:488-529 | which error for which refusal, without change; on success the cell is not loadable, its loadable pages are taken and exactly its CPUs were reset while suspended; on failure, which needs that an operation fails, the cell stays as it was, and its CPUs stay suspended |
| `Cells.Manager.SetLoadableCell` | hypervisor/control.c:531-570 | which error for which refusal, without change; otherwise the cell is loadable, exactly its CPUs were parked while suspended, and on success, which only a failing operation prevents, its loadable pages are what the root configuration says |
| `Cells.Manager.DestroyCell` | hypervisor/control.c:572-599 | which error for which refusal, without change; otherwise the cell is gone, its CPUs, asked to park, and pages are the root cell's again, nothing else changed |
| `Cells.Manager.CreateDestroy` | hypervisor/control.c:293-444 | creation and destruction restore CPUs, cells and, unless an operation fails, both maps |
| `Cells.Manager.Serve` | hypervisor/control.c:293-599 | over any sequence of commands, refused, failed or successful, with memory and names reused at will, the books stay right; if each new cell's memory is free at that time, a guest page of the root cell leads to a page of a live cell's region only if cell and region are loadable |
| `StopProtocol.StaysStopped` | hypervisor/arch/x86/control.c:123-149 | over every run, a suspend call that has returned and did not fall into the exposed window keeps the target out of its guest until stop_cpu is cleared |
| `StopProtocol.SuspendWorksIff` | hypervisor/arch/x86/control.c:123-141 | the exact condition: a suspend call works if and only if it does not start between leaving the wait and retaking the lock with no INIT pending and no shutdown |
| `StopProtocol.FailsIfExposed` | hypervisor/arch/x86/control.c:228-248 | from the exposed window a run leads into the guest after the call has returned |
| `StopProtocol.WindowReached` | hypervisor/arch/x86/control.c:143-149 | a run from the start, suspend and resume, that reaches the window |
| `StopProtocol.InitWins` | hypervisor/arch/x86/control.c:211-265 | on every return of every run a vector is returned only if the CPU does not wait for SIPI; an INIT is pending when the lock is given up if and only if the CPU was parked after it had left the loop of this pass |
| `StopProtocol.ParksWhileSuspended` | hypervisor/arch/x86/control.c:159-165 | if CPUs are parked only after a suspend that holds, none is |
| `StopProtocol.InitPending` | hypervisor/arch/x86/control.c:159-165 | a run in which a CPU is parked after a suspend in the window, and INIT is pending there |
| `StopProtocol.ResetStartsIff` | hypervisor/arch/x86/control.c:151-157 | the next return of a reset CPU, which may move between the two stores of the reset, carries the start vector if and only if no INIT was pending and the CPU had not failed, or had that vector already |
| `StopProtocol.StartLost` | hypervisor/arch/x86/control.c:211-265 | a run in which a CPU is parked, suspended again at once and reset, and the start vector is lost |
| `StopProtocol.CellStartIff` | hypervisor/control.c:518-521 | a cell start on a CPU that a suspend holds, failed before or not: the CPU returns with the start vector if and only if no INIT is pending |
| `StopProtocol.SipiIff` | hypervisor/arch/x86/control.c:180-265 | a SIPI to a CPU that waits for it: the next return hands out its vector and ends the wait if and only if no INIT is pending and the CPU has not failed |
| `StopProtocol.SipiOnce` | hypervisor/arch/x86/control.c:241-247 | and the return after that hands out none |
| `StopProtocol.SipiIgnored` | hypervisor/arch/x86/control.c:193-196 | a SIPI that the CPU does not wait for makes no difference to its next return |
| `StopProtocol.InitServed` | hypervisor/arch/x86/control.c:188-222 | an INIT to a CPU that does not wait for SIPI: the next return has no vector, and the CPU waits |
| `StopProtocol.InitThenSipi` | hypervisor/arch/x86/control.c:188-196 | an INIT to a CPU that waits already does not cost it the vector of the next SIPI |
| `StopProtocol.MailboxEmpty` | hypervisor/arch/x86/control.c:180-198 | over every run without resets: no SIPI comes between the look at the vector and the end of the loop |
| `StopProtocol.PanicStays` | hypervisor/arch/x86/control.c:286-293 | over every run: a CPU halted by a panic waits for SIPI and gets no vector until its cell is started or made loadable |
| `StopProtocol.HaltsIff` | hypervisor/arch/x86/control.c:167-178 | a CPU that a suspend holds and that is shut down halts without running its guest again if and only if it is not about to serve an INIT |
| `StopProtocol.FlushedBeforeGuest` | hypervisor/arch/x86/control.c:250-253 | in its guest the target has stale translations if and only if a commit came after the flush of its last pass |
| `StopProtocol.CommitMissed` | hypervisor/control.c:384-413 | a run as in a creation: a suspended CPU is parked and returns before the commit, and is left with stale translations |
| `StopProtocol.CommitsWhileSuspended` | hypervisor/arch/x86/control.c:99-116 | if commits come only after a suspend that holds, the target never runs its guest with stale translations |
| `Startup.AgreesIff` | hypervisor/setup.c:165-202 | in every interleaving all CPUs activate or all return the same error, if and only if there are no more CPUs than the header says, or just one |
| `Startup.Agreement` | hypervisor/setup.c:165-202 | the positive half, for every run |
| `Startup.Disagreement` | hypervisor/setup.c:187-202 | a run of one CPU too many in which one activates and another returns |
| `Startup.OneMaster` | hypervisor/setup.c:171-185 | mutual exclusion of the initialization and exactly one master |
| `Startup.ActiveTogether` | hypervisor/setup.c:114-141 | a CPU activates only when every CPU is initialized and in the root cell's set, without error |
| `Startup.ActiveClean` | hypervisor/setup.c:165-202 | over every run: if a CPU activates, no function has failed anywhere, every CPU was registered and initialized, and one CPU did both the early and the late initialization |
| `Startup.ReturnsFirst` | hypervisor/setup.c:165-202 | over every run: the error that a CPU returns is the first one that a function returned |
| `Startup.AllActivate` | hypervisor/setup.c:165-202 | for every number of CPUs a run in which all activate |
| `ShutdownVote.Hypervisor.Shutdown` | hypervisor/control.c:630-683 | refusal outside the root cell; the answer to a CPU that was told before; otherwise the decision by the cells' answers, the new states of all CPUs, and on approval an orderly closing of the cells and then of the root cell |
| `ShutdownVote.Hypervisor.CloseCells` | hypervisor/control.c:652-663 | the closing is orderly: for every cell each CPU of it is suspended once, but for the caller, and released once, the whole cell suspended before any CPU of it is released |
| `ShutdownVote.Hypervisor.SpreadState` | hypervisor/control.c:669-670 | the decision reaches the root cell's CPUs and no others |
| `ShutdownVote.ToldLatest` | hypervisor/control.c:641-678 | after any sequence of calls, a root CPU is told the latest decision |
| `ShutdownVote.OneVote` | hypervisor/control.c:630-683 | in a round, in any order: one decision, the same result for all root CPUs, no CPU touched after a denial, all states back to none |
| `ShutdownVote.ReleasedIff` | hypervisor/control.c:652-663 | an approved shutdown releases exactly the CPUs of the cells |
| `ShutdownVote.SuspendedFirst` | hypervisor/control.c:652-663 | no CPU is released before its whole cell was suspended |
| `ShutdownVote.ClosesOrderly` | hypervisor/control.c:652-663 | so is the sequence of actions that specifies it, for any cells |
| `ShutdownVote.ClosedOnce` | hypervisor/control.c:652-663 | in any orderly closing of cells that share no CPU, each of their CPUs is suspended once, later released once and then left alone; other CPUs are not touched |
| `TicketLock.MutualExclusion` | hypervisor/arch/arm/include/asm/spinlock.h:35-76 | with at most 2^16 CPUs, in every run at most one is inside, and they enter in ticket order, across wrap-around |
| `TicketLock.TooManyCpus` | hypervisor/arch/arm/include/asm/spinlock.h:35-76 | with one CPU more there is a run with two inside |
| `TicketLock.ExcludesIff` | hypervisor/arch/arm/include/asm/spinlock.h:35-76 | exclusion in all runs if and only if there are at most 2^16 CPUs |
| `TicketLock.TurnComes` | hypervisor/arch/arm/include/asm/spinlock.h:35-76 | at any point of any run at which somebody waits, at most four steps let the CPU with the oldest ticket in |
| `PendingIrq.WalkIsSorted` | hypervisor/arch/arm/irqchip.c:54-78 | the next pointers lead from the head through exactly the live slots, in strictly ascending order |
| `PendingIrq.PendingQueue.GetPendingSlot` | hypervisor/arch/arm/irqchip.c:60-78 | the least free slot and its predecessor, or null only if all slots are used |
| `PendingIrq.PendingQueue.Insert` | hypervisor/arch/arm/irqchip.c:80-112 | the least free slot joins the sorted list, every other entry is kept; -ENOMEM if and only if the queue is full |
| `PendingIrq.PendingQueue.Remove` | hypervisor/arch/arm/irqchip.c:140-154 | exactly the slot leaves the list, its own next pointer stays |
| `PendingIrq.PendingQueue.SetPending` | hypervisor/arch/arm/irqchip.c:114-135 | the interrupt with this id, with its physical one from 16 on, is injected at once if wanted and possible, queued otherwise, refused only if the queue is full |
| `PendingIrq.PendingQueue.InjectPending` | hypervisor/arch/arm/irqchip.c:156-181 | without interference: afterwards the queue is empty, or the registers are full and the maintenance interrupt is enabled, and whoever left the queue is in a register |
| `PendingIrq.GicInject` | hypervisor/arch/arm/gic-v2.c:211-260 | -EINVAL exactly if a register in use holds the id; the first free register; busy exactly if there is none, and then the maintenance interrupt is enabled |
| `PendingIrq.InjectHolds` | hypervisor/arch/arm/gic-v2.c:211-260 | an interrupt that is not refused for want of space is in a register afterwards; the others are untouched |
| `PendingIrq.InjectUniqueIff` | hypervisor/arch/arm/gic-v2.c:228-232 | injection keeps the ids in the registers unique if and only if the id has ten bits or nothing holds what is left of it |
| `PendingIrq.LrReadsBack` | hypervisor/arch/arm/gic-v2.c:244-257 | the register word gives back the virtual id if and only if it has ten bits, and then also the physical id |
| `PendingIrq.AskedReadsBack` | hypervisor/arch/arm/irqchip.c:114-135 | the register word for such a request is pending, shows the guest the id asked for, and from id 16 on is tied to the physical interrupt with that id |
| `Injection.NeverLost` | hypervisor/arch/arm/irqchip.c:80-181 | with any inserts in between, in every run: the list is sorted and linked, the cursor is on a live entry or leads to one, ids in registers are unique, and every accepted interrupt is queued, in a register, merged or delivered |
| `Injection.StructureKept` | hypervisor/arch/arm/irqchip.c:80-181 | every step keeps the list and the cursor |
| `Injection.ConservedKept` | hypervisor/arch/arm/irqchip.c:80-181 | every step keeps the account of interrupts |
| `Injection.CursorClimbs` | hypervisor/arch/arm/irqchip.c:156-181 | the cursor only moves to later slots, whatever others insert |
| `Injection.PassEnds` | hypervisor/arch/arm/irqchip.c:156-181 | in every run a pass takes at most three steps of the owner for every slot, however many interrupts are inserted |
| `Injection.PassDrains` | hypervisor/arch/arm/irqchip.c:156-181 | in every run, when a pass ends, every entry that was queued when it began has left the queue, or all registers are in use |
| `Injection.InsertQueues` | hypervisor/arch/arm/irqchip.c:80-112 | an interrupt for which a slot was found is accepted and queued once its inserter is through |
| `Injection.DirectTakes` | hypervisor/arch/arm/irqchip.c:131-132 | a direct injection is accepted exactly if no register holds the id and one is free, and is in a register then |
| `Injection.FinishFrees` | hypervisor/arch/arm/gic-v2.c:218-226 | a finished interrupt is delivered and frees its register |
| `Vtd.Tables.AddDevice` | hypervisor/arch/x86/vtd.c:289-320 | the lookup of this device becomes the cell's page table and id, all others stay; a page is taken exactly for the first device of a bus; -ENOMEM changes nothing |
| `Vtd.Tables.RemoveDevice` | hypervisor/arch/x86/vtd.c:322-347 | only this device's lookup goes; the bus table is released exactly with its last device |
| `Vtd.Tables.CellInit` | hypervisor/arch/x86/vtd.c:349-366 | -ERANGE for ids the hardware cannot hold, -ENOMEM without memory, otherwise a new domain |
| `Vtd.Tables.CellExit` | hypervisor/arch/x86/vtd.c:404-411 | the domain is gone once no device has it |
| `Vtd.TableIffDevice` | hypervisor/arch/x86/vtd.c:289-347 | a bus has a context table if and only if a device on it is bound |
| `Vtd.FoundIsBound` | hypervisor/arch/x86/vtd.c:309-316 | what the hardware finds for a device is the page table and the id of a live cell |
| `Division.DivU64` | hypervisor/printk-core.c:15-32 | the loops end with the exact quotient wherever some doubling of the divisor reaches above the dividend within 64 bits |
| `Division.DivExactIff` | hypervisor/printk-core.c:15-32 | the function ends with the exact quotient if and only if that is so |
| `Division.NeverEnds` | hypervisor/printk-core.c:21-25 | where the inner loop has no result, its guard holds for ever |
| `NumberFormat.WriteUint` | hypervisor/printk-core.c:44-60 | below 10^19 the loop writes the decimal form |
| `NumberFormat.Uint2StrIff` | hypervisor/printk-core.c:44-60 | the output is the decimal form if and only if the value is below 10^19 |
| `NumberFormat.CanonicalUnique` | hypervisor/printk-core.c:44-60 | the decimal form, digits that parse to the value without superfluous zeros, is unique |
| `HexFormat.Hex2StrIff` | hypervisor/printk-core.c:71-90 | the output is the hexadecimal form, with the leading zeros that the mask asks for, if and only if the value is below 2^63; otherwise the first division never ends |
| `HexFormat.WriteHex` | hypervisor/printk-core.c:71-90 | below 2^63 the loop writes that form |
| `NumberFormat.Align` | hypervisor/printk-core.c:92-103 | a text shorter than its field is moved to the end and the front filled; nothing else in the buffer changes |

## Left out

- 1 GiB pages: the step after a released table can become misaligned (hypervisor/paging.c:265-284); huge pages are 2 MiB here.
- Paging.PageTables.Destroy: with 2 MiB pages exactness over the whole range is stated for clean ranges, a sufficient condition; the exact one is stated for each round.
- Paging.PageTables.Create: leaves out ranges with a present 2 MiB page that is the first of the range in its table and either finds the table with no other entry than its own, or finds none and has no other 2 MiB page of the range to follow there. `MapRound` states such a round for any tree, and `LoseBlock` and `ForeignBlock` run it; what a later round makes of the page with the entry is stated where it becomes a table of 2 MiB entries. On another level it would hold a 1 GiB page.
- PageRuns.Perform: stated for operations that are exact on the tree, since others are no update of a map; `Paging.PageTables.Create` and `Destroy` say what those do.
- X86Decode.DecodeSetNext: a link names its table by the page number of its address; that pool page i lies at a fixed offset is not modelled.
- Address bits above those that index the root table, which the hardware ignores or checks.
- ARM page table accessors, guest page tables (page_map_get_guest_page) and the hypervisor's own mappings at start-up.
- Regions.RootMemory.VmxMap: that an operation on the tables is exact up to a page is taken from `Layers.Apply`, with the conditions listed above for 2 MiB pages.
- Regions.RootMemory.VmxUnmap: the same.
- Regions.RootMemory.VtdMap: the same.
- Regions.RootMemory.VtdUnmap: the same.
- Regions.RootMemory.ArchMap: the same.
- Regions.RootMemory.ArchUnmap: the same.
- Layers.Apply: with 2 MiB pages stated for the operations that are exact on the tree, under the conditions of `Paging.PageTables.Create` and `Destroy`.
- Regions: addresses and sizes are in pages, so that regions end below 2^64 is taken for granted; a region without read access counts as mapped here, while the tables have no valid entry for it.
- Cells.Manager.Suspend: in management commands suspending is one step that always works; how it is done between CPUs, and when it is not, is `StopProtocol`.
- Cells.Manager.DestroyInternal: unmapping the cell's own tables, returning its devices and the rest of the architecture's teardown.
- Messages to cells, whose answers are parameters.
- A cell's own page tables, the communication region's contents and PCI ownership with its rollback.
- Cells.Manager.Create: large CPU sets are only a possible error; the memory of one is not accounted for, and cell_destroy never frees it.
- Vtd.Tables.AddDevice: flushing the hardware's caches and the unit with no hardware beyond "nothing happens".
- PendingIrq.GicInject: when the maintenance interrupt comes and what its handler does.
- Fairness: `TicketLock.TurnComes`, `Startup.AllActivate` and the returns in `StopProtocol` show that a protocol can always go on, not that a CPU that could move does; the start-up barrier waits for ever with fewer CPUs than announced.
- Signed numbers and the format parser of the console.
- GIC distributor masking, VMCS and MSR handling, ARM CPU hot-plug (PSCI), console, driver, tools, configurations and inmates: hardware effects, I/O and static data.
