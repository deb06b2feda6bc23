# Verification of the CGOS kernel's core algorithms

CGOS is a small freestanding x86-64 kernel. This Dafny project models its stateful
algorithms and proves what they promise, for every input and over whole runs:

- **FAT16 file system** (`Fat16*.dfy`). The disk is a sequence of 512-byte sectors. The driver
  class keeps the one scratch sector buffer and the one-sector FAT cache of the C code, and its
  methods follow the C functions loop by loop, in the order in which the buffer is reused. On top of
  the bytes lie the FAT, the directory and the cluster chains. From any
  disk of an accepted size, over any run of format, mount, create and write, the driver returns exactly
  what a map from names to contents with so many free clusters and slots returns (`Fat16Model.dfy`,
  `Fat16Runs.dfy`), and the volume stays well-formed until a write finds no space.
- **Page tables on a bitmap allocator** (`Bitmap.dfy`, `Paging.dfy`, `TableNeeds.dfy`,
  `TableLedger.dfy`, `PageRanges.dfy`, `Vmm.dfy`, `VmmRuns.dfy`, `DeviceRanges.dfy`, `Devices.dfy`).
  Physical memory is a sequence of frames of 512 words, which makes the direct-map offset
  disappear. Table frames form an unshared tree whose frames the allocator never hands out again,
  and the four-level walk (4-level paging, section 4.5 of the Intel SDM volume 3A) agrees with a flat
  map from pages to leaf entries, flags included, for every 64-bit address. Which mappings succeed, and how far the others get, is decided by the
  distinct tables that their pages lack.
- **Scheduler** (`AdaptivePriority.dfy`, `ThreadLists.dfy`, `ThreadQueues.dfy`, `Scheduler.dfy`,
  `SchedulerModel.dfy`, `SchedulerRuns.dfy`). Intrusive doubly linked ready queues, the sorted sleep
  queue, the counters and the moving-average priority controller, with one method per API call. Whole
  runs follow a machine on values, with the queues as sequences. A context switch is the change of the
  current thread.
- **Smaller algorithms.** Bresenham's line and the midpoint circle (`Raster.dfy`), the Internet
  checksum of RFC 1071 (`Checksum.dfy`), dotted quads (`IpAddress.dfy`), DHCP options as in section 2
  of RFC 2132 (`Dhcp.dfy`), and the interrupt-driven key ring as interleaved steps (`Keyboard.dfy`).

`Fat16Failures.dfy`, `VmmFailures.dfy` and `SchedulerFailures.dfy` hold states and runs in which the
code does not do what it is meant to do. `Bytes.dfy` holds the machine words. Where the C code works in
place, the model is a class or an array method proved against a specification function, and the
properties are lemmas about that function. What a result is worth to a caller is also stated in
numbers, offsets and bytes. Unsigned subtraction and rounding wrap as in C where the code depends on it.

## What the code does not keep

Some intended properties do not hold of the code. The model keeps the code as it is and says exactly
when they do:

- A write that runs out of space has already freed the old chain, which the directory still names.
  The volume is well-formed afterwards exactly under `SurvivesFullDisk` (`Fat16Files.FullDiskExactly`);
  `Fat16Failures.FullDiskBreaks` reaches a state where it is not. Every other file is intact in any case.
- The second FAT copy of a freshly formatted volume lacks the two reserved entries, as the buffer is
  cleared after the first copy; the copies agree on exactly the entries from 2 on
  (`Fat16Format.FormattedCopies`).
- Names beyond the 8.3 limits are cut off when stored: they are not found again and may duplicate a
  live name, on volumes of every size (`Fat16Names.ShortNamesExactly`, `Fat16Files.CreateUnique`,
  `Fat16Failures.DuplicatePossible`). Chains and free clusters stay as they should (`Fat16Runs.AnyRun`).
- A mount divides by zero exactly for a signed boot sector of 512-byte sectors that claims zero sectors
  per cluster (`Fat16Driver.Fat16.Mount`, `Fat16Failures.MountDivides`).
- A failed device mapping keeps its mapped prefix and its address range; it changes no translation
  exactly if that prefix is empty or was mapped to the same frames before (`Vmm.VirtualMemory.MapMmio`,
  `PageRanges.NothingMapped`, `PageRanges.NothingChanged`); `VmmFailures.PrefixStays` reaches a state
  where it is neither.
- A tick that exhausts a slice queues the thread that still runs; this is exactly when the scheduler's
  invariant breaks (`Scheduling.Scheduler.Tick`, `SchedulerFailures.TickBreaks`). A second enqueue of the
  same thread makes a list that never ends (`ThreadLists.RequeueLoops`).
- A yield that reselects the same thread leaves it in state READY, without a new slice. This is exactly
  when no thread is ready at a level up to its new priority (`SchedulerModel.YieldReselects`,
  `SchedulerFailures.YieldExactly`, `SchedulerFailures.YieldStaysReady`).
- The sampled usage is cut to a byte before a tick limits it to 100, and a yield does not limit it. The
  byte is exact up to 255 per cent (`SchedulerModel.UsageExactly`, `SchedulerModel.RecordedExactly`);
  beyond that a thread can look idle (`SchedulerModel.OverrunLooksIdle`, `SchedulerFailures.OverrunWraps`).
  Runs of allowed calls never get there, and the first tick that exhausts a slice is still exact
  (`SchedulerModel.FairReplay`, `SchedulerModel.BudgetNeverWraps`).
- A stored checksum of 0xFFFF is rejected although RFC 1071 accepts it, except in a zero header
  (`Checksum.AcceptedExactly`, `Checksum.AllOnesRejected`).
- Empty pieces of an address are read as 0, so "..." and "1..2.3" are accepted; an accepted string has
  an empty piece exactly under the condition of `IpAddress.EmptyPieces`
  (`IpAddress.EmptyOctetAccepted`, `IpAddress.DotsAccepted`).

## Model

| member | source | states |
|---|---|---|
| `Fat16Names.NameTo83` | src/fs/fat16.c:123-148 | stores up to eight characters before the first dot and up to three behind it, padded with 0x20; the bytes 0x61 to 0x7A are stored 32 lower, so no small letter is stored |
| `Fat16Names.NameMatches` | src/fs/fat16.c:91-121 | accepts exactly the names as long as the text rebuilt from the directory entry in which every byte is the one of the text or the same letter in the other case, 32 higher or lower |
| `Fat16Names.UpperSame` | src/fs/fat16.c:114-117 | two texts have the same upper-case form if and only if they have the same length and differ at most in the case of letters, byte for byte |
| `Fat16Names.ShortNamesExactly` | src/fs/fat16.c:91-148 | a stored name is recognised under itself if and only if its base has at most 8 characters, its extension after the first dot at most 3 and at least one if there is a dot, and neither a space (so an empty base is recognised too, as in "" and ".TXT"); then it is recognised under exactly its case variants |
| `Fat16Names.LongNamesCollide` | src/fs/fat16.c:123-148 | a nine-character name is stored as its first eight characters and not found again: the limit of the previous row is sharp |
| `Fat16Chains.ChainUnique` | src/fs/fat16.c:321-341 | a FAT and a first cluster determine the chain |
| `Fat16Chains.LinkValues` | src/fs/fat16.h:65-68 | the links of a chain are the values from 2 to 0xFFF7 |
| `Fat16Chains.CountFreed` | src/fs/fat16.c:418-425 | freeing distinct used clusters raises the free count by exactly their number |
| `Fat16Chains.WalkDone` | src/fs/fat16.c:418-425 | a freeing walk that stops has freed exactly the clusters reachable by links, also on cyclic and cross-linked FATs |
| `Fat16Chains.ReachedIsChain` | src/fs/fat16.c:418-425 | from the head of a proper chain the reachable clusters are the chain |
| `Fat16Chains.PartitionDisjoint` | src/fs/fat16.c:385-480 | in a partitioned table no cluster belongs to two directory slots |
| `Fat16Chains.Conservation` | src/fs/fat16.c:81-88 | free clusters plus chain lengths equal the total number of clusters |
| `Fat16Chains.OtherChainKept` | src/fs/fat16.c:416-464 | replacing one chain leaves every other chain a proper chain |
| `Fat16Chains.Repartition` | src/fs/fat16.c:416-464 | giving a slot a new chain of free or formerly own clusters keeps all chains disjoint |
| `Fat16Chains.AllocateNext` | src/fs/fat16.c:427-447 | one more first-fit cluster linked behind a chain gives a proper chain, an unchanged rest of the table and one free cluster less |
| `Fat16Volume.SetFatEffect` | src/fs/fat16.c:53-79 | writing one FAT entry changes one logical entry, keeps all copies equal from entry 2 on, and nothing outside the FATs |
| `Fat16Volume.FreeingDone` | src/fs/fat16.c:418-425 | on the disk, freeing changes exactly the reached entries, in every copy |
| `Fat16Volume.FindFromExactly` | src/fs/fat16.c:277-304 | the directory scan finds slot k exactly when k is the first live slot with that name before the end mark |
| `Fat16Volume.FindFromNone` | src/fs/fat16.c:277-304 | the scan fails exactly when no live slot carries the name |
| `Fat16Volume.CaseVariantsFound` | src/fs/fat16.c:277-304 | names that differ in the case of letters only find the same slot, in every directory |
| `Fat16Volume.SetSlotEffect` | src/fs/fat16.c:466-477 | writing back one directory slot changes that slot, and neither another slot, the FATs nor any sector of the data region |
| `Fat16Volume.ClusterInjective` | src/fs/fat16.c:31-34 | distinct clusters occupy distinct sectors |
| `Fat16Volume.SectorAddress` | src/fs/fat16.c:31-34 | sector j of cluster c is sector (c - 2) * sectors per cluster + j of the data region |
| `Fat16Volume.ClustersForExactly` | src/fs/fat16.c:427-464 | the number of clusters of a file is its size over the bytes of a cluster, rounded up |
| `Fat16Volume.HoldsNext` | src/fs/fat16.c:449-461 | writing the next chunk to a sector not used so far extends the stored prefix by exactly that chunk |
| `Fat16Volume.StoringExactly` | src/fs/fat16.c:427-464 | storing all the data takes exactly as many clusters as the size asks for, and stopping early means that there were fewer free ones |
| `Fat16Files.OthersSurvive` | src/fs/fat16.c:416-464 | the chain and the bytes of every other file survive an overwrite, also one that runs out of space |
| `Fat16Files.RewrittenWellFormed` | src/fs/fat16.c:416-479 | a successful overwrite keeps the volume well-formed: chains in range, acyclic, ended, disjoint and of the right length |
| `Fat16Files.RewrittenContents` | src/fs/fat16.c:416-479 | after a successful overwrite the slot holds exactly the data |
| `Fat16Files.RewrittenFiles` | src/fs/fat16.c:385-480 | after a successful overwrite the new contents are found under the names of that slot, and every other name finds what it found |
| `Fat16Files.FullDiskExactly` | src/fs/fat16.c:434-437 | an overwrite that runs out of space leaves a well-formed volume if and only if `SurvivesFullDisk` held before it |
| `Fat16Files.FullDiskFiles` | src/fs/fat16.c:434-437 | when the disk runs full every other file keeps its contents |
| `Fat16Files.FindAfterCreate` | src/fs/fat16.c:346-383 | the new slot is found under exactly the names it matches, unless an earlier slot is |
| `Fat16Files.LiveBytes` | src/fs/fat16.c:289-292 | the tests of an entry on its bytes, and where start cluster and size stand in it |
| `Fat16Files.NewEntryBytes` | src/fs/fat16.c:366-375 | the 32 bytes of a new entry |
| `Fat16Files.WithFileBytes` | src/fs/fat16.c:466-477 | the six bytes that an overwrite changes, and that the others stay |
| `Fat16Files.CreateLookups` | src/fs/fat16.c:346-383 | a created name is found if and only if it fits the 8.3 limits and does not begin with the deletion mark; other lookups do not change |
| `Fat16Files.CreateUnique` | src/fs/fat16.c:346-383 | live names stay unique if and only if the text actually stored was not in the directory; names within the limits always keep them unique |
| `Fat16Files.CreateWellFormed` | src/fs/fat16.c:346-383 | creating a file keeps the volume well-formed, the end mark last and every other slot as it was |
| `Fat16Files.CreateFiles` | src/fs/fat16.c:346-383 | after a create an empty file is found under exactly the names of the new entry, all other files are unchanged |
| `Fat16Files.ReadingDone` | src/fs/fat16.c:321-341 | when the read loop stops it has copied the first bytes of the file, as many as were asked for |
| `Fat16Format.FatSizeFits` | src/fs/fat16.c:537-560 | the FAT, whose size is computed before the FATs are subtracted, has room for every cluster and fits 16 bits, for every accepted size |
| `Fat16Format.FormattableExactly` | src/fs/fat16.c:532-560 | the accepted sizes are those from 16405 to 262646 sectors |
| `Fat16Format.FormatLayout` | src/fs/fat16.c:537-560 | for every accepted size the regions follow one another and fit on the disk, and no cluster number reaches 0xFFF7 |
| `Fat16Format.BootFields` | src/fs/fat16.c:564-614 | what a mount reads from the boot sector written by a format is the geometry it worked with |
| `Fat16Format.ParsedBytes` | src/fs/fat16.c:185-199 | what a mount derives from any boot sector, byte by byte, with the wrap-around of a data region that begins behind the last sector |
| `Fat16Format.BootConstants` | src/fs/fat16.c:569-614 | the bytes of the boot sector that a mount does not read |
| `Fat16Format.LabelBytes` | src/fs/fat16.c:597-670 | a label is stored in capitals and padded, in the boot sector and in the root directory |
| `Fat16Format.FormattedMounts` | src/fs/fat16.c:150-215 | every formatted disk passes the checks of a mount and yields the same cluster count and regions |
| `Fat16Format.FormattedFat` | src/fs/fat16.c:622-643 | every entry from 2 on is free in both copies |
| `Fat16Format.FormattedCopies` | src/fs/fat16.c:622-643 | on every formatted disk the two copies agree on exactly the entries from 2 on: the second one lacks both reserved entries |
| `Fat16Format.FormattedWellFormed` | src/fs/fat16.c:519-678 | a formatted volume is well-formed, empty and has every cluster free |
| `Fat16Driver.Fat16.ReadSector` | src/drivers/ata.c:193-201 | a read fills the buffer or fails before touching it |
| `Fat16Driver.Fat16.FatReadEntry` | src/fs/fat16.c:36-51 | whatever the cache holds, the result is the entry on the disk, and the cache stays coherent |
| `Fat16Driver.Fat16.WriteCopies` | src/fs/fat16.c:68-72 | the mirroring loop writes the buffered sector to every FAT copy and nowhere else |
| `Fat16Driver.Fat16.FatWriteEntry` | src/fs/fat16.c:53-79 | the disk becomes `SetFat`; the cache holds no sector afterwards |
| `Fat16Driver.Fat16.FatFindFreeCluster` | src/fs/fat16.c:81-89 | returns the lowest free cluster, 0 exactly if none is free |
| `Fat16Driver.Fat16.FreeChain` | src/fs/fat16.c:416-425 | terminates on every FAT whose links stay inside the table and frees exactly the clusters reached |
| `Fat16Driver.Fat16.ClusterToSector` | src/fs/fat16.c:31-34 | the first sector of a cluster: that of cluster 2 is the first of the data region |
| `Fat16Driver.Fat16.StoreCluster` | src/fs/fat16.c:449-461 | each sector of the cluster gets the next 512 bytes, the last one padded with zeros, as far as the data reaches; the sectors behind it and all other sectors keep their bytes |
| `Fat16Driver.Fat16.StoreData` | src/fs/fat16.c:427-464 | stores all the data in newly allocated clusters, or stops when none is free; exact in either case |
| `Fat16Driver.Fat16.FindFile` | src/fs/fat16.c:277-304 | the first live slot with the name, up to the case of letters, or -1 exactly if there is none |
| `Fat16Driver.Fat16.ReadFile` | src/fs/fat16.c:306-344 | copies exactly the first n = min(size, limit) bytes of the file and leaves the rest of the buffer alone; returns n, or n - 2^32 from 2^31 on, and fails exactly for names that find no file |
| `Fat16Driver.Fat16.CopyChain` | src/fs/fat16.c:321-341 | copies the first bytes of a chain |
| `Fat16Driver.Fat16.UpdateEntry` | src/fs/fat16.c:466-477 | changes start cluster and size of one slot, after reading the directory sector again |
| `Fat16Driver.Fat16.WriteFile` | src/fs/fat16.c:385-480 | succeeds exactly when the file exists and its old clusters plus the free ones suffice; then the contents are the data, every other file is unchanged, and the number of bytes is returned, less 2^32 from 2^31 on |
| `Fat16Driver.Fat16.FindFree` | src/fs/fat16.c:357-365 | finds the first unused slot, and none exactly if all are used |
| `Fat16Driver.Fat16.CreateFile` | src/fs/fat16.c:346-383 | fails exactly if the name is found or no slot is unused; otherwise the first unused slot becomes the new entry, and a name within the 8.3 limits is then found there in every mixture of small letters and capitals |
| `Fat16Driver.Fat16.Mount` | src/fs/fat16.c:150-215 | accepts exactly the boot sectors that pass its checks and takes the regions from their bytes; it divides by zero exactly for a signed boot sector of 512-byte sectors with zero sectors per cluster |
| `Fat16Driver.Fat16.Format` | src/fs/fat16.c:519-678 | succeeds exactly for present disks of 16405 to 262646 sectors and then writes exactly the formatted disk |
| `Fat16Driver.OverwriteDone` | src/fs/fat16.c:416-479 | an overwrite with enough space establishes everything `Replaced` says: well-formed volume, free count, directory, lookups and contents |
| `Fat16Driver.CreateDone` | src/fs/fat16.c:346-383 | a create establishes everything `Created` says |
| `Fat16Model.LookupCase` | src/fs/fat16.c:277-304 | lookups see names up to case, and two names found in the same slot are equal up to case |
| `Fat16Model.ReplayResults` | src/fs/fat16.c:346-480 | what `Replay` returns for a write that succeeds is the number of bytes, as a signed 32-bit number |
| `Fat16Model.FoundIsFile` | src/fs/fat16.c:277-304 | on a well-formed volume a name finds a slot if and only if the map has a file of that name, and the slot has exactly as many clusters as the file needs |
| `Fat16Model.WriteRepresents` | src/fs/fat16.c:385-480 | a successful overwrite takes the volume where `Apply` takes the map: new contents under one name, the difference in free clusters, no other name changed |
| `Fat16Model.CreateRepresents` | src/fs/fat16.c:346-383 | a create takes the volume where `Apply` takes the map, for names within the 8.3 limits on any volume and for all names where no file stands behind an unused slot: the empty file is found under the text stored, unless a file of that text is there, and names stay unique unless it is |
| `Fat16Model.FullRepresents` | src/fs/fat16.c:434-437 | a write that runs out of space leaves every other name with its contents |
| `Fat16Runs.FormatAndMount` | src/fs/fat16.c:519-678 | format, then mount, for exactly the disks of 16405 to 262646 sectors: a well-formed volume that represents the empty map, with every cluster and every slot but that of the label free |
| `Fat16Runs.WriteThenRead` | src/fs/fat16.c:306-480 | what is written is read back, byte for byte and with the number of bytes, whenever the space suffices |
| `Fat16Runs.SoundConserves` | src/fs/fat16.c:416-479 | in every well-formed mounted state, free clusters plus chain lengths equal the total |
| `Fat16Runs.AnyRun` | src/fs/fat16.c:346-480 | any operations, with any names, on any well-formed volume: up to the first write that finds no space every state is well-formed with all clusters accounted for, a write succeeds exactly when its old clusters and the free ones suffice, a create exactly when the name is new and a slot unused, and each has exactly its effect; the write that ends the run is one whose clusters did not suffice |
| `Fat16Runs.Run` | src/fs/fat16.c:346-480 | over any run of creates and writes every return value, the point at which a write finds no space, what every name finds, and whether two entries carry the same name are exactly those of `Replay` on a map with so many free clusters and slots, and a successful write returns its number of bytes as a signed 32-bit number; the creates have names within the 8.3 limits, or any names where no file stands behind an unused slot |
| `Fat16Runs.FittingUnique` | src/fs/fat16.c:123-148 | a run whose creates all have names within the 8.3 limits makes no duplicate |
| `Fat16Runs.Life` | src/fs/fat16.c:150-678 | from any disk of 16405 to 262646 sectors, with any names: format, mount and any run return exactly what `Replay` says of the empty map of this size; names are unique exactly if `Replay` says so, and until a write finds no space the volume stays well-formed and all clusters are accounted for |
| `Fat16Failures.FullDiskBreaks` | src/fs/fat16.c:434-437 | on every formatted disk: an empty file and a write of more than the volume holds, after which no assignment of chains makes it well-formed |
| `Fat16Failures.LongNameDuplicates` | src/fs/fat16.c:123-148 | next to its first eight letters the nine-letter name makes a duplicate, in any directory with unique names |
| `Fat16Failures.DuplicatePossible` | src/fs/fat16.c:346-383 | on a formatted disk of any accepted size both names can be created, and then names are not unique |
| `Fat16Failures.MountDivides` | src/fs/fat16.c:185-199 | a boot sector on which a mount divides by zero |
| `Bitmap.SetOneBit` | src/memory/bitmap_mem.c:5-8 | setting one bit of a byte sets that bit and no other |
| `Bitmap.ClearOneBit` | src/memory/bitmap_mem.c:5-8 | clearing one bit of a byte clears that bit and no other |
| `Bitmap.FreeAfterTaking` | src/memory/bitmap_mem.c:84-91 | taking a run lowers the free count by its length, so no run is longer than the free count |
| `Bitmap.BitmapManager.Init` | src/memory/bitmap_mem.c:14-37 | every block is free and `free_blocks` is their number |
| `Bitmap.BitmapManager.AllocBlock` | src/memory/bitmap_mem.c:39-57 | returns the lowest free block, NULL exactly if every block is in use |
| `Bitmap.BitmapManager.AllocBlocks` | src/memory/bitmap_mem.c:59-97 | returns the lowest run of `count` free blocks and marks exactly it; NULL exactly if there is none |
| `Bitmap.BitmapManager.ScanForRun` | src/memory/bitmap_mem.c:68-96 | the scan finds the lowest run, or there is none |
| `Bitmap.BitmapManager.FreeBlock` | src/memory/bitmap_mem.c:99-111 | frees the block that holds the address; a double free and a foreign address change nothing |
| `Bitmap.BitmapManager.FreeBlocks` | src/memory/bitmap_mem.c:113-133 | frees exactly the range, cut off at the end of the managed memory |
| `Bitmap.GrantKeepsOwned` | src/memory/bitmap_mem.c:59-97 | a new grant does not overlap the ranges live |
| `Bitmap.FirstGap` | src/memory/bitmap_mem.c:68-96 | the lowest gap between ranges that is wide enough, or there is none |
| `Bitmap.RunIsGap` | src/memory/bitmap_mem.c:68-96 | when the blocks in use are exactly those of the ranges, free runs and gaps between the ranges are the same |
| `Bitmap.FirstRunIsGap` | src/memory/bitmap_mem.c:59-97 | the run that first fit takes is the lowest gap |
| `Bitmap.Serve` | src/memory/bitmap_mem.c:39-133 | over any sequence of allocations and owner frees the ranges handed out are exactly those of `Answers`, first fit on a list of ranges; they are disjoint, and the blocks in use are exactly theirs |
| `Paging.OrShift` | src/memory/vmm.c:92-132 | or-ing commutes with shifting right, so flag bits do not disturb the address bits of an entry |
| `Paging.EntryFields` | src/memory/vmm.c:130-132 | an entry made of an aligned address and flags holds that frame and is present exactly if the flag is |
| `Paging.PageEntry` | src/memory/vmm.c:130-132 | the entry made of an address and flags holds its frame, is present, and for an aligned address is their sum |
| `Paging.SamePage` | src/memory/vmm.h:66-69 | two addresses use the same four indices if and only if they agree on bits 12 to 47 |
| `Paging.WalkOffPath` | src/memory/vmm.c:318-353 | a table write off the way of an address does not change its walk |
| `Paging.LeafWrite` | src/memory/vmm.c:110-138 | a write to the leaf entry changes the walks of exactly one page and keeps the tree unshared |
| `Paging.LeafKeepsTables` | src/memory/vmm.c:131 | a write to a leaf entry changes no entry that points to a table |
| `Paging.AddTableKeeps` | src/memory/vmm.c:81-110 | hanging a table changes no such entry but the one filled, whose low bits are 3 |
| `Paging.AddTableEffect` | src/memory/vmm.c:81-110 | hanging a cleared frame into an empty entry changes no walk, keeps the tree unshared and leaves one table less to be created |
| `Paging.MissingThrough` | src/memory/vmm.c:81-110 | the tables missing for an address are those missing below the table reached so far |
| `PageRanges.ReservedAfter` | src/memory/vmm.c:81-110 | an allocated table frame is never a free block of the allocator |
| `Vmm.VirtualMemory.AllocPage` | src/memory/pmm.c:85-91 | a frame that was free, now used; 0 exactly if none is free |
| `TableNeeds.AddTableMade` | src/memory/vmm.c:81-110 | hanging a table makes exactly one place of the tree present, for every address |
| `TableNeeds.NextNeed` | src/memory/vmm.c:190-261 | after the first i pages, what page i lacks is the growth of the set of tables that the first i + 1 pages lack |
| `Vmm.VirtualMemory.EnsureTable` | src/memory/vmm.c:81-95 | finds or creates the next table; fails if and only if the entry is not present and no frame is free; no leaf entry and no present table entry changes, and a new one has the low bits 3 |
| `Vmm.VirtualMemory.EnsureTables` | src/memory/vmm.c:81-110 | the walk to the leaf table, creating what is missing; if it fails then no frame is left while a table is still missing |
| `Vmm.VirtualMemory.MapPage` | src/memory/vmm.c:62-138 | fails exactly without a direct map or with fewer free frames than missing tables, and then changes no leaf entry; success gives the page of an aligned address the leaf entry address + 1 + 2 * (flags / 2 % 16) and leaves the leaf entries of all other pages as they were, word for word; table entries stay, and new ones have the low bits 3 |
| `Vmm.VirtualMemory.UnmapPage` | src/memory/vmm.c:273-307 | exactly the page of the address loses its leaf entry; table entries stay |
| `Vmm.VirtualMemory.GetPhysicalAddr` | src/memory/vmm.c:318-353 | the walk returns the translation, 0 if there is none |
| `Vmm.VirtualMemory.MmioPages` | src/memory/vmm.c:190-261 | the loop stops at the first page whose tables the free frames do not suffice for; these have then become the tables nearest to the root that this page lacks |
| `Vmm.VirtualMemory.MapMmio` | src/memory/vmm.c:166-271 | maps the pages in order, present, writable and uncached (0x1B), as many as the distinct tables they lack fit into the free frames, so it succeeds if and only if the tables lacking for all pages do; a failure leaves that prefix mapped and no frame free, uses up the address range, and has created exactly the tables of the prefix and those of the next page for which there were frames |
| `PageRanges.LastFit` | src/memory/vmm.c:190-261 | the number of pages mapped is the largest whose tables fit |
| `PageRanges.PagesOfExactly` | src/memory/vmm.c:177 | the number of pages is the size rounded up, and 0 if the rounding wraps around |
| `TableLedger.PageMade` | src/memory/vmm.c:62-110 | a mapping creates all tables that its page lacks, or as many as there are frames, those nearest to the root |
| `TableLedger.RangeAll` | src/memory/vmm.c:190-261 | as long as the frames suffice, the tables created are those that the pages lack |
| `TableLedger.RangeMade` | src/memory/vmm.c:190-261 | how far a device mapping gets and which tables it leaves, by the first page that does not fit |
| `TableLedger.RangeAfter` | src/memory/vmm.c:190-261 | a device mapping gets exactly as far, and creates exactly the same tables, whether the tables made before are counted as present or as made since |
| `PageRanges.NothingMapped` | src/memory/vmm.c:166-271 | a mapping from an unmapped page on changes no translation if and only if it mapped no page |
| `PageRanges.NothingChanged` | src/memory/vmm.c:166-271 | in general a mapping of aligned pages, without wrap-around, changes no translation if and only if all its pages were mapped to the same frames before |
| `Vmm.VirtualMemory.Unmap` | src/memory/vmm.c:309-316 | unmaps exactly the pages of the range, with its 64-bit wrap-around |
| `PageRanges.RangeOutside` | src/memory/vmm.c:166-271 | addresses outside a range keep their translation, however far the mapping got |
| `PageRanges.RangeOffset` | src/memory/vmm.c:166-271 | within a mapped range every byte translates to the device byte at the same offset, and the low bits of its leaf entry are 0x1B |
| `VmmRuns.FlatAgrees` | src/memory/vmm.c:318-353 | every memory and root have a flat view: a leaf entry depends on bits 12 to 47 alone |
| `VmmRuns.AgreesMapped` | src/memory/vmm.c:62-138 | mapping a page updates the flat view at that page |
| `VmmRuns.AgreesRange` | src/memory/vmm.c:166-271 | mapping a range updates the flat view at those pages |
| `VmmRuns.Run` | src/memory/vmm.c:62-353 | from any valid page tables, over any run of maps, unmaps and device mappings, the leaf entries of all 2^64 addresses, flags and all, are those of a flat map; the number of pages each operation maps, the tables created and the frames left are exactly those of `Counts`, also after the frames have run out, and every page asked for is mapped if and only if the free frames suffice for all tables that the run lacks |
| `VmmRuns.OpMadeAfter` | src/memory/vmm.c:62-271 | how far one operation gets depends only on the first page tables and on the tables made since |
| `VmmFailures.PrefixStays` | src/memory/vmm.c:166-271 | with three free frames and an empty root table a device of 513 pages is refused, and yet translations have changed |
| `Devices.MapDevice` | src/memory/vmm.c:166-271 | succeeds if and only if the tables that its pages lack fit into the free frames; then every byte translates to address + offset, uncached. Leaf entries outside the range survive also a failure |
| `Devices.MapDevices` | src/memory/vmm.c:166-271 | devices mapped one after another all stay mapped; they are the most whose tables fit into the free frames, and if not all then no frame is left |
| `DeviceRanges.DevicesDisjoint` | src/memory/vmm.c:166-271 | the address ranges of different calls never overlap |
| `AdaptivePriority.FeedConfined` | src/sched/scheduler.c:122-169 | whatever the samples, the priority stays between the base priority and LOW and the slice length is the one for the priority |
| `AdaptivePriority.SampleNumbers` | src/sched/scheduler.c:122-169 | one sample in numbers: the average of eight, a step down above 80 per cent and up below 30, between the base and 5, and the slice 10 + (7 - priority) * 3 |
| `AdaptivePriority.BusyReachesLow` | src/sched/scheduler.c:122-169 | 7 + (LOW - base) consecutive samples above 80 bring a thread whose base lies between HIGH and LOW to LOW |
| `AdaptivePriority.LazyReturnsToBase` | src/sched/scheduler.c:122-169 | as many samples below 30 bring it back to its base priority |
| `ThreadLists.ChainUnique` | src/sched/scheduler.c:99-117 | a head and the links determine the list |
| `ThreadLists.AppendLinked` | src/sched/scheduler.c:42-56 | hanging a thread behind the tail appends it to a doubly linked list |
| `ThreadLists.UnlinkLinked` | src/sched/scheduler.c:78-96 | cutting out a thread removes it from the list and keeps the rest doubly linked |
| `ThreadLists.SpliceChain` | src/sched/scheduler.c:99-117 | splicing a thread into the sleep queue inserts it at that place |
| `ThreadLists.InsertSorted` | src/sched/scheduler.c:99-117 | inserting behind all that wake no later keeps the queue sorted |
| `ThreadLists.BelongsOnce` | src/sched/scheduler.c:99-117 | the place behind all threads that wake no later is unique: insertion is stable |
| `ThreadLists.RequeueLoops` | src/sched/scheduler.c:323-339 | enqueuing the last thread of a queue again makes it its own successor: no finite list has this head any more |
| `ThreadQueues.OneQueue` | src/sched/scheduler.c:42-117 | a thread is in at most one place of at most one queue |
| `ThreadQueues.LevelFrom` | src/sched/scheduler.c:174-184 | the first non-empty level |
| `ThreadQueues.PickedQueued` | src/sched/scheduler.c:174-184 | dispatch takes the picked thread, and no other, out of the queues |
| `ThreadQueues.PlacedDispatch` | src/sched/scheduler.c:202-233 | after a dispatch every thread is again where its state says |
| `ThreadQueues.RoundRobin` | src/sched/scheduler.c:342-371 | threads of one priority run in turn, each once in every round, while no more urgent thread is ready; `SchedulerModel.TurnsReplayed` ties the turns to yields |
| `Scheduling.DueExactly` | src/sched/scheduler.c:187-199 | in a sorted sleep queue the due threads are exactly the woken prefix |
| `Scheduling.AwakeStep` | src/sched/scheduler.c:187-199 | waking one more sleeper extends the woken prefix by it, at the tail of the queue of its priority |
| `Scheduling.Scheduler.constructor` | src/sched/scheduler.c:246-275 | empty queues, the idle thread outside them |
| `Scheduling.Scheduler.Create` | src/sched/thread.c:60-131 | a new thread in no queue: priority 3 if the one given is not below 7, a slice of 10 + (7 - priority) * 3 ticks, eight samples of 50 |
| `Scheduling.Scheduler.EnqueueReady` | src/sched/scheduler.c:42-56 | the thread is at the tail of the queue of its priority, nothing else moves, the counter is exact |
| `Scheduling.Scheduler.DequeueReady` | src/sched/scheduler.c:59-75 | takes the head of the queue, if there is one |
| `Scheduling.Scheduler.RemoveFromReady` | src/sched/scheduler.c:78-96 | takes the thread out of its queue, wherever it stands in it |
| `Scheduling.Scheduler.LastNoLater` | src/sched/scheduler.c:108-111 | finds the last sleeper that wakes no later |
| `Scheduling.Scheduler.EnqueueSleep` | src/sched/scheduler.c:99-117 | inserts the thread at the one place where it belongs |
| `Scheduling.Scheduler.UpdateCpuUsage` | src/sched/scheduler.c:122-132 | the oldest of eight samples is replaced, and the average is their sum over 8 |
| `Scheduling.Scheduler.AdjustPriority` | src/sched/scheduler.c:135-169 | one level down above 80 per cent and above level 5, one up below 30 and below the base, with the slice for the new level; the idle thread and real-time threads stay; boosts and demotions are counted |
| `Scheduling.Scheduler.PickNext` | src/sched/scheduler.c:174-184 | the head of the lowest-numbered non-empty level, or the idle thread |
| `Scheduling.Scheduler.WakeExpired` | src/sched/scheduler.c:187-199 | exactly the due sleepers move, in wake order, to the tails of the queues of their priorities |
| `Scheduling.Scheduler.SwitchTo` | src/sched/scheduler.c:202-224 | the thread becomes current, RUNNING, with 10 + (7 - priority) * 3 ticks left and none used, unless it is current already |
| `Scheduling.Scheduler.Schedule` | src/sched/scheduler.c:227-233 | the picked thread becomes current; if it was not, its slice is whole |
| `Scheduling.Scheduler.Add` | src/sched/scheduler.c:277-286 | a thread outside the queues is queued; the invariant is kept |
| `Scheduling.Scheduler.Tick` | src/sched/scheduler.c:302-340 | wakes exactly the due sleepers and takes one tick from the slice of the current thread; the invariant survives if and only if the slice is not exhausted |
| `Scheduling.Scheduler.Yield` | src/sched/scheduler.c:342-371 | samples the usage, requeues the thread at its new priority and dispatches; a thread that was not current gets its whole slice; the invariant is kept |
| `Scheduling.Scheduler.Block` | src/sched/scheduler.c:373-385 | the thread is blocked; if it was current, the picked thread runs with its whole slice |
| `Scheduling.Scheduler.Unblock` | src/sched/scheduler.c:387-396 | a blocked thread is queued, any other call changes nothing |
| `Scheduling.Scheduler.Sleep` | src/sched/scheduler.c:398-410 | the thread joins the sleep queue behind all that wake no later, with its wake time; if it was current, the picked thread runs with its whole slice |
| `Scheduling.Scheduler.Start` | src/sched/scheduler.c:412-447 | the picked thread runs |
| `Scheduling.Scheduler.Finish` | src/sched/thread.c:137-144 | the current thread is marked as ended, before it yields |
| `SchedulerModel.UsageExactly` | src/sched/scheduler.c:355-356 | the sampled byte is the share of the slice used if and only if the share is below 256 per cent |
| `SchedulerModel.RecordedExactly` | src/sched/scheduler.c:327-328 | a tick records the share cut to 100 if and only if the byte did not wrap to a value below 100 |
| `SchedulerModel.OverrunLooksIdle` | src/sched/scheduler.c:327-328 | after 57 ticks in a slice of 22 the share is 259 per cent and 3 is recorded, below the threshold of a boost |
| `SchedulerFailures.WrapAtFortyOne` | src/sched/scheduler.c:314-338 | a thread of normal priority that is not switched out has a slice of 16 by its 40th tick; the 41st makes the share 256 per cent and records 0 |
| `SchedulerFailures.OverrunWraps` | src/sched/scheduler.c:314-338 | such a scheduler, reached from initialisation by 41 ticks |
| `SchedulerModel.BudgetNeverWraps` | src/sched/scheduler.c:323-356 | a thread within its budget has a share of at most 168 per cent at a yield and 175 at the end of its slice, so neither sample wraps |
| `SchedulerModel.FairKept` | src/sched/scheduler.c:246-410 | every allowed call keeps every thread within its budget: ticks used and left are at most a slice at the base priority, and one is left |
| `SchedulerModel.FairReplay` | src/sched/scheduler.c:246-410 | so does every run of allowed calls |
| `SchedulerModel.TurnIsYield` | src/sched/scheduler.c:342-371 | a yield by a thread that is not ended and whose sampled priority is p is one turn of queue p |
| `SchedulerModel.YieldReselects` | src/sched/scheduler.c:342-371 | a thread that yields is reselected if and only if no thread is ready at a level up to its new priority, and exactly then the thread that runs afterwards is not in state RUNNING and has no new slice |
| `SchedulerFailures.YieldExactly` | src/sched/scheduler.c:342-371 | the same of the scheduler, in every state that its invariant allows |
| `SchedulerFailures.YieldStaysReady` | src/sched/scheduler.c:342-371 | one thread that yields alone goes on in state READY |
| `SchedulerFailures.TickBreaks` | src/sched/scheduler.c:302-340 | a thread of normal priority alone: the 22nd tick breaks the invariant |
| `SchedulerModel.DispatchFull` | src/sched/scheduler.c:202-233 | a dispatch that changes the current thread gives the new one its whole slice |
| `SchedulerModel.TicksSurvived` | src/sched/scheduler.c:302-340 | a thread survives exactly the ticks left of its slice but the last, whoever wakes in the meantime |
| `SchedulerRuns.SliceLasts` | src/sched/scheduler.c:302-340 | the same of the scheduler: the invariant holds exactly until the last tick of the slice |
| `SchedulerRuns.YieldThenTicks` | src/sched/scheduler.c:202-371 | after a yield that changes the current thread, the tick with number 10 + (7 - priority) * 3 is the first to break the invariant |
| `SchedulerModel.TurnsReplayed` | src/sched/scheduler.c:342-371 | n such yields are n turns |
| `SchedulerModel.RealtimeTurns` | src/sched/scheduler.c:342-371 | whatever they use of their slices, real-time threads that yield run in turn, each once in every round |
| `SchedulerRuns.Perform` | src/sched/scheduler.c:246-410 | every allowed call takes queues, control blocks and current thread where the machine on values goes |
| `SchedulerRuns.Run` | src/sched/scheduler.c:246-447 | from initialisation on, whatever threads are created and added before the start and whatever calls follow, up to the first outside the claim: queues, control blocks and current thread are exactly those of `Replay`, the queues are doubly linked lists, the counters are exact, no thread is lost, and no thread exceeds its budget; calls can go on from there |
| `Raster.NextPoint` | src/graphic/graphic.c:375-384 | the choice of steps keeps the point within half a pixel of the line |
| `Raster.NearLine` | src/graphic/graphic.c:375-384 | such a point is at most half a pixel off the ideal line |
| `Raster.NearBox` | src/graphic/graphic.c:347-386 | it is inside the box, and it is the end exactly after max(dx, dy) steps |
| `Raster.DrawLine` | src/graphic/graphic.c:347-386 | terminates, visits exactly max(dx, dy) + 1 points from one end to the other, each within half a pixel of the ideal line; no int overflows as long as 3 * max(dx, dy) < 2^31 |
| `Raster.NextOnCircle` | src/graphic/graphic.c:438-456 | the sign of the decision variable keeps the next point within half a pixel of the circle |
| `Raster.DrawCircle` | src/graphic/graphic.c:417-459 | terminates; one point per column from the top to the diagonal, each within half a pixel of the circle |
| `Checksum.OnesSum` | src/network/ip.c:147-150 | the ones-complement sum, by its residue modulo 65535 |
| `Checksum.Fold` | src/network/ip.c:147-150 | the carry fold terminates and yields the ones-complement sum |
| `Checksum.IpChecksum` | src/network/ip.c:138-154 | the complement of the carry-folded sum of ten words, the bytes at even offsets plus 256 times those at odd ones; the 32-bit sum does not overflow |
| `Checksum.ByteOrderIndependent` | src/network/ip.c:138-154 | the little-endian result is the byte swap of the big-endian checksum of RFC 1071, section 2(B) |
| `Checksum.IpValidateChecksum` | src/network/ip.c:156-163 | the header is unchanged afterwards; the result is `Accepted` |
| `Checksum.AcceptedExactly` | src/network/ip.c:156-163 | accepted if and only if the sum of all words is 0xFFFF and the stored checksum is not 0xFFFF, or all other words are zero |
| `Checksum.AllOnesRejected` | src/network/ip.c:156-163 | a header that has the right sum and is rejected |
| `IpAddress.StrToAddr` | src/network/ip.c:165-200 | yields the address that the string denotes: four dot-separated strings of digits, each below 256 and possibly empty; 0 for every other string |
| `IpAddress.EmptyPieces` | src/network/ip.c:165-200 | a piece is empty if and only if the string is, or ends with a dot, or has a dot with nothing or another dot before it |
| `IpAddress.EmptyOctetAccepted` | src/network/ip.c:165-200 | "1..2.3" is accepted as 1.0.2.3 |
| `IpAddress.AddrToStr` | src/network/ip.c:202-237 | prints the dotted quad without leading zeros |
| `IpAddress.RoundTrip` | src/network/ip.c:165-237 | what is printed is parsed back, for every address |
| `Dhcp.AddOption` | src/network/dhcp.c:65-80 | fails exactly if offset + 2 + len reaches 312, changing nothing; otherwise code, length and data are stored at the offset and nothing else changes |
| `Dhcp.BuildOptions` | src/network/dhcp.c:108-133 | fails exactly if the encoded list and the end mark do not fit; otherwise the field starts with them |
| `Dhcp.ScanWire` | src/network/dhcp.c:229-310 | scanning an encoded list closed by an end mark yields the list, whatever follows |
| `Dhcp.ScanMarks` | src/network/dhcp.c:232-247 | 0 is skipped, 255 ends the list, and so does an option that is cut off |
| `Dhcp.AcceptedLengths` | src/network/dhcp.c:249-304 | which lengths are taken for which code |
| `Dhcp.LastOfFour` | src/network/dhcp.c:256-304 | the last option with an acceptable length gives the value, most significant byte first |
| `Dhcp.Client.ParseOptions` | src/network/dhcp.c:229-310 | on any bytes: terminates, depends only on the first `len`, and each of the eight fields gets the value of the last option with its code and an acceptable length, or stays |
| `Dhcp.LastStep` | src/network/dhcp.c:229-310 | one more option replaces the value of its own code only, and only with an acceptable length |
| `Dhcp.Exchange` | src/network/dhcp.c:65-310 | what a sender encodes the receiver stores |
| `Keyboard.RingPut` | src/drivers/keyboard.c:40-48 | storing at the head of a ring that is not full adds the character behind the others |
| `Keyboard.RingGet` | src/drivers/keyboard.c:51-58 | moving the tail takes exactly the first character away |
| `Keyboard.KeyRing.BufferPut` | src/drivers/keyboard.c:40-48 | a key is dropped exactly when 63 are pending |
| `Keyboard.KeyRing.Step` | src/drivers/keyboard.c:51-83 | between any two steps of the reader the characters accepted are those delivered followed by the ring contents |
| `Keyboard.Run` | src/drivers/keyboard.c:40-83 | under any interleaving of key interrupts with the separate steps of the reader, the ring is a bounded queue with atomic operations |
| `Keyboard.NothingLost` | src/drivers/keyboard.c:40-83 | what is delivered and pending is what was typed, in order, but for dropped keys; at most 63 are pending, and none of the first 63 keys is dropped |

## Left out

- ATA port I/O: a drive is an array of sectors that accepts exactly the sectors it has; transient read and write errors do not occur.
- Deleting a file that is not empty: the C code changes the FAT through the buffer that holds the directory entry before writing it back; no delete is modelled.
- Listing the root directory: it repeats the scan of `FindFile` with a callback.
- Fat16Driver.Fat16.Format: formatting the mounted drive is not followed by a claim about the mounted state, because the C code does not unmount it.
- Fat16Driver.Fat16.FreeChain: links that leave the table are excluded, because the C code then reads and writes sectors behind the FAT.
- Fat16Runs.Run: on a volume with a file behind an unused slot, where a new entry may come before an old one of the same text, it takes creates within the 8.3 limits only; other names there are the subject of `AnyRun`. Runs end at the first write that finds no space; what later calls do is stated for the single call. The same holds for `AnyRun` and `Life`.
- Bitmap.BitmapManager.FreeBlocks: addresses are unbounded numbers, so the sum of a start block and a count does not wrap around as size_t.
- NULL results and arguments: they are `None`; a managed memory at address 0, a page mapped at virtual address 0 and null managers, where C cannot tell NULL from an address, are not distinguished further.
- Vmm.VirtualMemory.MapPage: huge pages and no-execute bits inherited from the boot loader's tables, TLB flushes and CR3 switches are not modelled; the current context is the kernel's.
- Vmm.VirtualMemory.AllocPage: the statistics of the physical memory manager and its region reservation are left out.
- Scheduling.Scheduler.Yield: a yield by the idle thread is excluded, because that thread only halts.
- Scheduling.Scheduler.Sleep: only the current thread or one outside all queues may be put to sleep; the C code would corrupt the ready queue otherwise. The same holds for `Block` and `Add`.
- Scheduling.Scheduler.RemoveFromReady: `scheduler_remove`, which leaves the removed thread in state READY, is not an operation of the runs.
- SchedulerRuns.Run: it ends at the first call outside the claim (adding a thread that is queued, asleep, blocked or current, a call by the idle thread, a tick that exhausts a slice). The numbers of switches, boosts and demotions are stated for the single calls that change them.
- Scheduler in place: thread control blocks are records in a table indexed by thread number, which stands for the pointer; they are updated by replacing the record, so aliasing of two pointers to one block is the equality of two numbers.
- Thread numbers, tick counts and the scheduler's counters are unbounded; stacks, TSS updates, the 256-entry thread table and `thread_set_priority` are left out.
- Raster.DrawLine: the brush and the pixel writes are left out; the points at which the brush is set down are returned.
- Raster.DrawCircle: the eight mirror images, the thickness and the filled variant are left out; radii are below 2^29.
- Dhcp.BuildOptions: the fixed option list of a discover or request is generalised to any list; packets, timers and the client's states are left out.
- Keyboard.KeyRing.Step: there is one reader, and reads and writes of one index are single steps; scancodes and modifiers are left out.
- Heap allocation, TCP, UDP, ICMP, ARP, sockets, E1000, PCI, ACPI, descriptor tables, timer, shell and the other drawing code: hardware, user interface, or easier than what is here.
