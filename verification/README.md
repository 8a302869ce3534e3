# A verified model of the 8086-OS kernel and tools

This project models the parts of 8086-OS whose correctness rests on more than one
function, and proves what they keep in every run: the FAT32 driver, the kernel heap, descriptors
and pipes, the task ring and its scheduler, signals, the text editor with the
terminal it draws on, the disk cache, the path normaliser and the edge sort of the font code.

`dafny verify dfyconfig.toml` checks all of it.

| files | what they hold |
|---|---|
| `HeapSpec`, `HeapLists`, `Heap`, `HeapLaws` | blocks that tile the heap, segregated free lists, `kmalloc`/`kfree` on linked headers, the layouts they leave |
| `FatTable`, `FatDir`, `FatVolume`, `FatSteps` | allocation table, directories, well-formed volumes, single changes |
| `FatPaths`, `FatLoops`, `FatWalk` | paths, loops over bytes and slots, walks along a directory |
| `FatOutcomes`, `FatCalls`, `Fat32` | what a change leaves, the calls step by step on any volume, the driver |
| `FatNames`, `FatDisk`, `FatFailures` | names and slots byte by byte and what the scans find, where tables and clusters lie on the disk, volumes on which the driver does harm |
| `DescriptorSpec`, `DescriptorRuns`, `PipeRuns`, `Descriptors`, `DescriptorLaws` | reference counts, the calls as events, whole runs, the calls field by field, what each call does |
| `TaskRing`, `TaskList` | scheduling as steps on a ring, the ring as a linked list |
| `Signals` | pending signals and the saved frame |
| `Terminal`, `TerminalDriver`, `TerminalLaws`, `Render` | the ANSI state machine, its implementation, the effect of each character and sequence, the editor's screen diff |
| `Editor` | lines and cursor as a flat text, saving and loading |
| `PathText`, `AbsPath` | path text and its components, the normaliser |
| `DiskCache` | the sector cache and the disk calls over it |
| `EdgeSort` | the unguarded quicksort and its insertion pass |

In each part a value-level specification (functions on data types) carries the theorems, and
classes with the program's own fields and loops are proved equal to it, call by call.

## What the proofs brought to light

* A name whose 8.3 form holds a byte of 0x80 or more is written and never found again, because
  `match_dos_name` compares unsigned bytes with signed characters (`FatDir.SignedMatch`,
  `FatFailures.HighByteNeverRead`). A first byte 0xE5 is the special case of a slot that counts as deleted.
* Names are told apart without case, and without blanks at the end of base and extension: `A` and `A ` are the same
  file (`FatNames.SameName`, `FatNames.BlankIsLost`).
* After a `fat32_write_file` that returns 1 the path finds a file of that size exactly when it does not end
  in a slash and its name has no such byte; it reads back exactly when, in addition, the data fits the read limit
  of 2000000 clusters (`Fat32.Driver.WriteFile`). A write that finds the directory full has taken its clusters
  by then, and they are lost (`FatCalls.WriteMeans`).
* The path lookup descends into regular files as if they were directories (`FatPaths.FilesAreSearched`). A
  deletion through the bytes of one file frees the cluster of another (`FatFailures.DeleteThroughFile`).
* A directory can be made beside a volume label of its name. The volume stays well formed exactly if there is no
  such label (`Fat32.Driver.MkDir`, `FatFailures.LabelHidesName`); a deletion then takes the label
  (`FatFailures.DeleteTakesLabel`).
* `kmalloc_a` wraps for requests just below 2^32, and writes its back pointer over the header of the next block
  (`Heap.WrapRange`, `Heap.WrapHitsHeader`).
* After a pipe has reported its end, more bytes can follow: `sys_write_fd` does not look at the
  descriptor's mode, so the holder of the reading end can write (`PipeRuns.EndIsNotAlwaysFinal`). A pipe at its
  end stays there exactly until that happens (`PipeRuns.EndStaysUnlessWritten`).
* When `create_process` gets no stack, the counts raised for the new task stay raised, exactly if there
  was a descriptor to share (`DescriptorRuns.SpawnFailure`); no other call makes them inexact
  (`DescriptorRuns.StepExact`).
* A current task that sleeps is not woken by the scheduler when its time comes, unless it is the only task
  (`TaskRing.ScheduleMeans`).
* Enter followed by backspace does not restore a line of 255 characters (`Editor.EnterThenBackspace`), and a file
  that is saved and loaded gains an empty line (`Editor.LoadOfSaved`).
* Resolving the empty path and then `b` is resolving `"" + "/" + b` exactly if `b` comes by the root
  directory, as long as the depth limit of 64 is not in the way (`AbsPath.EmptyLosesDirectory`); at the limit other
  paths agree, too (`AbsPath.LimitHides`). For a nonempty first path it always is (`AbsPath.Composes`).
* The partition of the edge quicksort leaves one element to neither recursive call whenever the pivot's key is its
  own (`EdgeSort.Partition`), so that only the insertion pass makes the result sorted.

## Model

| member | source | states |
|---|---|---|
| `HeapSpec.Rounded` | kernel/mm/memory.c:94-97 | rounding to four bytes in 32-bit arithmetic covers the request exactly when it is at most 0xFFFFFFFC |
| `HeapSpec.BinMonotone` | kernel/mm/memory.c:31-48 | a larger block is never in a lower bin |
| `HeapSpec.PayloadsDisjoint` | kernel/mm/memory.c:94-130 | payloads of different blocks share no byte |
| `HeapSpec.TilesExactly` | kernel/mm/memory.c:66-92 | used bytes, free bytes and 28 per header make up the heap exactly |
| `HeapSpec.AllocKeepsInv` | kernel/mm/memory.c:94-130 | taking a block, split or whole, keeps the heap tiled with no two free neighbours |
| `HeapSpec.FreeKeepsInv` | kernel/mm/memory.c:132-158 | freeing with merges on both sides keeps it too |
| `HeapSpec.FreeUndoesAlloc` | kernel/mm/memory.c:94-158 | `kfree` right after `kmalloc` restores the layout |
| `HeapSpec.AllocAddrs` | kernel/mm/memory.c:94-130 | the set of allocated blocks gains exactly the block handed out |
| `HeapSpec.FreeAddrs` | kernel/mm/memory.c:132-158 | and loses exactly the block freed, whatever is merged |
| `HeapSpec.AllocAligned` | kernel/mm/memory.c:94-130 | block sizes stay multiples of four |
| `HeapSpec.RunKeepsInv` | kernel/mm/memory.c:94-158 | every state of every run of `kmalloc` and `kfree` is tiled and coalesced, with the blocks handed out being the used ones |
| `HeapSpec.FreeingAllRestores` | kernel/mm/memory.c:132-158 | a run that freed all it allocated ends with the single initial block |
| `HeapLaws.BinIs` | kernel/mm/memory.c:31-48 | a size is in the first of the bins up to 32, 64, 128 and so on that it does not exceed |
| `HeapLaws.AllocIs` | kernel/mm/memory.c:112-129 | the blocks after `kmalloc`: cut after the size asked for if more than 44 bytes are left, taken whole if not |
| `HeapLaws.HandedSize` | kernel/mm/memory.c:112-129 | the block handed out has at least the size asked for and at most 44 bytes more |
| `HeapLaws.FreeIs` | kernel/mm/memory.c:132-158 | the blocks after `kfree`: one free block in place of the block and its free neighbours |
| `HeapLaws.AllocUses` | kernel/mm/memory.c:94-130 | `kmalloc` raises the bytes in use by the size handed out |
| `HeapLaws.FreeReleases` | kernel/mm/memory.c:132-158 | `kfree` lowers them by the size of the block |
| `HeapLists.BinsInsert` | kernel/mm/memory.c:50-56 | the pointer writes of an insertion put the block in front of its bin and leave all other lists alone |
| `HeapLists.BinsRemove` | kernel/mm/memory.c:58-64 | the pointer writes of a removal take out that block only |
| `HeapLists.DListInsert` | kernel/mm/memory.c:112-122 | linking a header into the block list keeps it doubly linked |
| `HeapLists.DListRemove` | kernel/mm/memory.c:140-153 | so does unlinking one |
| `Heap.Kernel.HeapInit` | kernel/mm/memory.c:66-92 | headers, links and bins agree with one free block over the whole heap |
| `Heap.Kernel.InsertFreeBlock` | kernel/mm/memory.c:50-56 | the block becomes the first of the bin of its size |
| `Heap.Kernel.RemoveFreeBlock` | kernel/mm/memory.c:58-64 | the block leaves its bin, the other bins stay |
| `Heap.Kernel.FindFit` | kernel/mm/memory.c:99-110 | finds a fitting block in the lowest bin that has one, and none only if none exists |
| `Heap.Kernel.Allocate` | kernel/mm/memory.c:112-129 | the linked heap changes as the block sequence does |
| `Heap.Kernel.KMalloc` | kernel/mm/memory.c:94-130 | NULL exactly when no free block has the rounded size; otherwise the payload of one, with the heap invariant and all lists kept |
| `Heap.Kernel.KFree` | kernel/mm/memory.c:132-158 | the block is freed and merged with free neighbours on both sides; NULL and free blocks change nothing |
| `Heap.Kernel.JoinRight` | kernel/mm/memory.c:140-146 | a free right neighbour is absorbed, in headers and lists |
| `Heap.Kernel.JoinLeft` | kernel/mm/memory.c:147-156 | the block is absorbed by a free left neighbour, or listed itself |
| `Heap.Kernel.UsedMemory` | kernel/mm/memory.c:220-232 | the sum over the used blocks |
| `Heap.Kernel.KMallocA` | kernel/mm/memory.c:160-168 | what `kmalloc` hands out for the request plus 4100 in 32-bit arithmetic, with the payload aligned to a page behind it and the raw pointer in the word before; that word is inside the block, and the heap intact, if the sum does not wrap to less than a page |
| `Heap.AlignedPlace` | kernel/mm/memory.c:163-165 | where payload and back pointer lie in a block, for every request |
| `Heap.WrapRange` | kernel/mm/memory.c:161 | the requests that wrap to less than a page are exactly those above 2^32 - 4104 and below 2^32 - 7; one of 2^32 - 4100 becomes none |
| `Heap.WrapHitsHeader` | kernel/mm/memory.c:160-168 | for every such size a heap on which the back pointer is written over the next block's header |
| `Heap.Kernel.KFreeA` | kernel/mm/memory.c:170-174 | frees the raw block the stored pointer leads to |
| `FatTable.SetKeepsTop` | fs/fat/fat32.c:118 | the top four bits of every entry stay |
| `FatTable.SetIs` | fs/fat/fat32.c:110-121 | writing an entry sets the low 28 bits of its word and nothing else; below cluster 2 nothing is written |
| `FatTable.WalkIsChain` | fs/fat/fat32.c:129-138 | following entries visits exactly the chain, up to the loop's limit |
| `FatTable.WalkIs` | fs/fat/fat32.c:129-138 | on any table a walk follows the entries and ends at the limit, at an entry that leads to itself, or off the table |
| `FatTable.ChainGrows` | fs/fat/fat32.c:493-516 | marking a cluster as the end and linking it lengthens the chain by it |
| `FatTable.HintAfterAlloc` | fs/fat/fat32.c:140-154 | allocating leaves no free entry below the hint |
| `FatTable.HintAfterFree` | fs/fat/fat32.c:450-457 | lowering the hint on a free does so too |
| `FatTable.UsedAfterFree` | fs/fat/fat32.c:450-457 | the number of nonzero entries falls by one per freed entry, which ends the loop on any table |
| `FatTable.FreedChain` | fs/fat/fat32.c:446-459 | freeing a chain clears its entries and no others |
| `FatTable.FreedReaches` | fs/fat/fat32.c:450-457 | on any table, cyclic ones included, the freeing loop frees its first cluster and whatever a freed one leads to, and keeps top bits |
| `FatTable.FreedOnly` | fs/fat/fat32.c:450-457 | and nothing outside a set of clusters closed under the links |
| `FatTable.FreedCount` | fs/fat/fat32.c:446-459 | and makes as many clusters free as the chain has |
| `FatDir.DosNameStart` | fs/fat/fat32.c:23-28 | an 8.3 name starts neither with 0 nor with a dot |
| `FatDir.LongNameLosesExtension` | fs/fat/fat32.c:26-27 | a base name of more than eight characters loses its extension |
| `FatNames.NameWithDot` | fs/fat/fat32.c:23-28 | byte by byte: the base in upper case and blanks up to eight, the extension in upper case, cut at three, and blanks |
| `FatNames.NameWithoutDot` | fs/fat/fat32.c:23-28 | without a dot in the first nine characters: the first eight and no extension |
| `FatNames.SameName` | fs/fat/fat32.c:23-28 | two texts have the same 8.3 name exactly if they agree up to case and trailing blanks |
| `FatNames.NamesApart` | fs/fat/fat32.c:23-28 | without blanks, only texts equal up to case share a name |
| `FatNames.BlankIsLost` | fs/fat/fat32.c:23-28 | two texts that differ in a trailing blank share one |
| `FatNames.EntryLayout` | fs/fat/fat32.c:525-540 | where name, attribute, both halves of the first cluster and the size are in a new slot, and zeros elsewhere |
| `FatNames.SlotFields` | fs/fat/fat32.c:201-216 | first cluster and size as read from a slot; attribute bit 3 is the label, bit 4 the directory |
| `FatNames.NewAttribute` | fs/fat/fat32.c:525-540 | 0x20 for a file, 0x10 for a directory |
| `FatNames.ScanTakes` | fs/fat/fat32.c:185-222 | in any directory the lookup takes the first slot that fits and none behind an end mark |
| `FatNames.DeleteTakes` | fs/fat/fat32.c:434-464 | the deletion takes the first slot of the name, labels included, with no end mark before it in its sector |
| `FatNames.DeletesAlong` | fs/fat/fat32.c:429-465 | on any volume it searches the clusters of the walk in turn |
| `FatNames.RoomAlong` | fs/fat/fat32.c:518-548 | on any volume a new entry goes to the first slot of the walk that starts with 0 or 0xE5 |
| `FatNames.EntryLeadsTo` | fs/fat/fat32.c:209-215 | a slot leads to its first cluster, or to the root directory for 0, with its size and kind |
| `FatNames.PaddedWith` | fs/fat/fat32.c:502-514 | a cluster holds the data and zeros behind it |
| `FatDir.SignedMatch` | fs/fat/fat32.c:30-34 | comparing unsigned slot bytes with signed characters succeeds exactly on equal names without a byte of 0x80 or more |
| `FatDir.EntryRoundTrip` | fs/fat/fat32.c:525-540 | name, attribute, first cluster and size of a slot read back as written |
| `FatDir.LookupFinds` | fs/fat/fat32.c:185-222 | the scan finds the slot with a name that can be found |
| `FatDir.LookupAfterUpdate` | fs/fat/fat32.c:185-222 | rewriting a slot of another name does not change what is found |
| `FatDir.DirOKAfterDelete` | fs/fat/fat32.c:442-448 | marking a slot deleted keeps a directory well formed |
| `FatDir.DirOKAfterAdd` | fs/fat/fat32.c:520-545 | so does filling the first free slot with a new name |
| `FatVolume.ChainsDisjoint` | fs/fat/fat32.c:493-516 | on a well-formed volume no cluster is in two chains, or twice in one |
| `FatVolume.UniquePath` | fs/fat/fat32.c:156-234 | two paths through directories to the same directory are the same path |
| `FatVolume.PathsKept` | fs/fat/fat32.c:156-234 | a path that does not lead through the changed name resolves as before |
| `FatVolume.FilesKept` | fs/fat/fat32.c:379-406 | and a file there reads the same bytes |
| `FatSteps.BuildKeeps` | fs/fat/fat32.c:493-516 | writing only to free clusters keeps the volume well formed and all names |
| `FatSteps.DeleteStep` | fs/fat/fat32.c:442-459 | deleting a slot and its chain keeps the volume well formed and every other name |
| `FatSteps.AddStep` | fs/fat/fat32.c:518-548 | entering a new chain keeps both, and the new name finds it |
| `FatSteps.AddHidden` | fs/fat/fat32.c:518-548 | a slot whose name starts with the deletion mark changes no name |
| `FatPaths.PathSplits` | fs/fat/fat32.c:413-425 | a path is its parent's names followed by the 8.3 form of its last part, unless it ends in a slash |
| `FatPaths.FilesAreSearched` | fs/fat/fat32.c:175-228 | the lookup goes on through the bytes of a regular file |
| `FatLoops.MatchDosName` | fs/fat/fat32.c:30-34 | the two loops, which compare unsigned bytes with signed characters, succeed on exactly the names of `SignedMatch` |
| `FatLoops.ScanCluster` | fs/fat/fat32.c:185-222 | the nested slot loops find what a scan of all slots of the cluster finds |
| `FatLoops.ReadChain` | fs/fat/fat32.c:383-405 | the cluster and sector loops return the first bytes of the chain's contents |
| `FatLoops.ClusterImage` | fs/fat/fat32.c:502-514 | the sector loop fills a cluster with its share of the data and zeros |
| `FatLoops.ToDosFileName` | fs/fat/fat32.c:23-28 | the copying loops produce the padded upper-case 8.3 name |
| `FatWalk.SearchFinds` | fs/fat/fat32.c:428-465 | on a well-formed volume the deletion loop takes a slot of the directory that goes by the name, or there is none |
| `FatWalk.RoomFinds` | fs/fat/fat32.c:518-548 | on a well-formed volume the loop for a new entry takes the first slot that is not taken, or all are |
| `FatOutcomes.ReadBack` | fs/fat/fat32.c:379-406 | reading a chain filled with padded data gives the data exactly when it fits the read limit |
| `FatOutcomes.DeletionMeans` | fs/fat/fat32.c:408-468 | where the parent is reached through directories, a deletion returns 1 exactly when the directory has the name; then the name is gone, its clusters and slot are free, every other file reads the same, and the volume is well formed |
| `FatOutcomes.DirsReach` | fs/fat/fat32.c:408-468 | and goes, in its lookup and after it, to clusters in the table only |
| `FatOutcomes.TwinsBreak` | fs/fat/fat32.c:295-370 | with two slots of one name in a directory no reading of the volume is well formed |
| `FatOutcomes.DotsRefer` | fs/fat/fat32.c:324-341 | the two dot entries: names, the cluster each refers to, and unused slots behind them |
| `FatCalls.EnteredAt` | fs/fat/fat32.c:518-548 | there the new entry changes that slot and no other byte, the renewed end mark included |
| `FatCalls.EntryPutIs` | fs/fat/fat32.c:525-545 | on any volume, byte by byte: the entry in its slot, a zero behind it if the slot was the end, all else as before |
| `FatCalls.NewDirRefers` | fs/fat/fat32.c:324-341 | `.` refers to the new directory and `..` to its parent, or to 0 for the root |
| `FatCalls.StoreCount` | fs/fat/fat32.c:485-550 | on any volume a write takes exactly the clusters its data needs, also when the directory turns out full, and all there are when these are too few |
| `FatCalls.StoreMeans` | fs/fat/fat32.c:485-550 | what allocation, data and entry mean for the path where the directory does not have the name |
| `FatCalls.WriteMeans` | fs/fat/fat32.c:470-550 | what the steps of a write, taken on any volume, mean on a well-formed one whose parent is reached through directories |
| `FatCalls.DirsReachWrite` | fs/fat/fat32.c:470-550 | such a write stays in the table, in both of its lookups |
| `FatCalls.MakeMeans` | fs/fat/fat32.c:295-370 | what the steps of making a directory, taken on any volume, mean there |
| `FatCalls.DirsReachMake` | fs/fat/fat32.c:295-370 | they stay in the table, too |
| `FatFailures.HighByteNeverRead` | fs/fat/fat32.c:30-34 | no volume lets the path `/` followed by the byte 0xE9 be read |
| `FatFailures.DeleteThroughFile` | fs/fat/fat32.c:408-468 | on a well-formed volume, deleting `/A/S/X` where A is a file frees the cluster of file B, which is still found, and changes A |
| `FatFailures.LabelHidesName` | fs/fat/fat32.c:295-370 | a well-formed volume whose label hides a name from the lookup that guards `fat32_mkdir` |
| `FatFailures.DeleteTakesLabel` | fs/fat/fat32.c:428-465 | deleting the directory made beside the label takes the label, and the directory is still found |
| `FatDisk.DataWriteSectors` | fs/fat/fat32.c:123-127 | the sectors written for a data cluster lie behind the tables and then hold its new bytes |
| `FatDisk.DataWriteOnly` | fs/fat/fat32.c:123-127 | no other sector of the disk changes, the tables included |
| `FatDisk.ClustersFollow` | fs/fat/fat32.c:123-127 | cluster 2 begins behind the table copies, and each cluster follows the one before |
| `FatDisk.TableWriteSectors` | fs/fat/fat32.c:110-121 | writing an entry changes one sector of each table copy, one copy or two, and no data |
| `Fat32.Driver.Mount` | fs/fat/fat32.c:102-107 | the hint starts at 0 and is sound; limits 1000 and 2000000 are those of the loops |
| `Fat32.Driver.WriteFatEntry` | fs/fat/fat32.c:110-121 | sets the low 28 bits of one entry; a second table stays a mirror, top bits stay as mounted |
| `Fat32.Driver.FindFreeCluster` | fs/fat/fat32.c:140-154 | the lowest free cluster of the whole table, 0 exactly when there is none; the hint stays sound |
| `Fat32.Driver.FreeChain` | fs/fat/fat32.c:450-457 | ends on every table, cyclic ones included; mirror, hint and top bits kept |
| `Fat32.Driver.FindEntry` | fs/fat/fat32.c:181-228 | the cluster loop finds what a scan of the whole directory finds |
| `Fat32.Driver.GetClusterForPath` | fs/fat/fat32.c:156-234 | the token loop resolves the names of the path one after the other |
| `Fat32.Driver.GetFileSize` | fs/fat/fat32.c:372-377 | the size of the file found as an int, -1 for directories and missing names |
| `Fat32.Driver.ReadFile` | fs/fat/fat32.c:379-406 | the size as an int and, below 2 GiB, the bytes of the file found |
| `Fat32.Driver.BuildChain` | fs/fat/fat32.c:493-516 | succeeds exactly when enough clusters are free; a new chain of clusters that were free holds the padded data, no other cluster or entry changes, and the free clusters are fewer by exactly its length; on failure nothing is free |
| `Fat32.Driver.DeleteFile` | fs/fat/fat32.c:408-468 | on every volume, well formed or not, whose clusters it goes to are in the table, its result and the volume it leaves are those of the deletion function, and table, mirror, hint and top bits are in order; `DeletionMeans` applies where the volume is well formed and the parent reached through directories |
| `Fat32.Driver.WriteFile` | fs/fat/fat32.c:470-550 | on every volume it takes the steps of deletion, allocation and entry, and keeps table, mirror, hint and top bits in order; where the volume is well formed and the parent reached through directories: after 1 the path finds a file of the data's size if and only if its name can be found, and reads back exactly if and only if the read limit covers it, too; other names keep their files; -2 exactly when the free clusters and those of the old file are too few, otherwise -1 exactly when the directory is full; the count of free clusters after it; the volume stays well formed |
| `Fat32.Driver.PrepareDir` | fs/fat/fat32.c:315-345 | 0 exactly without a free cluster, and then nothing changes; otherwise one that was free holds the entry `.` with its own number, the entry `..` with that of the parent or 0 for the root, and zeros, and nothing else changes |
| `Fat32.Driver.MkDir` | fs/fat/fat32.c:295-370 | on every volume -3 exactly when the path exists, otherwise the steps of allocation and entry, with table, mirror, hint and top bits kept in order; where the volume is well formed and the parent reached through directories: 1, -1 and -2 by free slot and free cluster; after 1 the volume is well formed if and only if the directory has no volume label of the name, and then an empty directory is found there and other names keep their files |
| `DescriptorSpec.CloseKeeps` | fs/fd.c:128-162 | closing keeps counts and references in step, releases unreferenced files and frees a pipe with its last end |
| `DescriptorSpec.AttachKeeps` | fs/fd.c:31-45 | one more holder of a file keeps them in step |
| `DescriptorSpec.DetachKeeps` | kernel/task/task.c:188-195 | one holder less of a file held twice does too |
| `DescriptorSpec.PutAppends` | fs/fd.c:240-243 | a byte written to the ring comes last |
| `DescriptorSpec.TakeRemoves` | fs/fd.c:187-190 | the byte read from the ring is the oldest |
| `DescriptorRuns.LowestFd` | fs/fd.c:51-55 | the descriptor chosen is the lowest free one from 3 on |
| `DescriptorRuns.LowestFile` | fs/fd.c:57-61 | the file chosen is the lowest unused one |
| `DescriptorRuns.OpenKeeps` | fs/fd.c:47-86 | opening keeps the counts |
| `DescriptorRuns.PipeKeeps` | fs/fd.c:88-126 | making a pipe keeps the counts, with one reader and one writer |
| `DescriptorRuns.PipeConnects` | fs/fd.c:88-126 | the two new descriptors are the reading and the writing end of the same empty pipe |
| `DescriptorRuns.InheritKeeps` | fs/fd.c:31-45 | after inheritance the child names what the parent names, and the counts are right |
| `DescriptorRuns.RedirectKeeps` | kernel/task/task.c:187-245 | a redirection never drops a file's last reference and keeps the counts |
| `DescriptorRuns.SpawnTable` | kernel/task/task.c:185-245 | a new task has its parent's descriptors, with 0 and 1, 2 replaced as asked, and the parent keeps its own |
| `DescriptorRuns.SpawnKeeps` | kernel/task/task.c:162-287 | creation keeps the counts, exact if the stack is found and at least the references if not |
| `DescriptorRuns.SpawnFailure` | kernel/task/task.c:252-253 | without a stack the counts stay exact if and only if the new task had no descriptor to share |
| `DescriptorRuns.ExitKeeps` | kernel/task/task.c:347-350 | closing all descriptors of a task that ends keeps the counts |
| `DescriptorRuns.StepKeepsCounts` | fs/fd.c:31-197 | every call keeps: count at least references, readers and writers equal to the counts of the two ends, no file in use with a freed pipe |
| `DescriptorRuns.StepExact` | fs/fd.c:31-197 | of all calls exactly such a creation makes exact counts inexact |
| `DescriptorLaws.OpenMeans` | fs/fd.c:47-86 | an open fails exactly if the file is missing and not to be made, or descriptors or files are used up; otherwise the lowest free descriptor from 3 on names the lowest unused file with these flags, and nothing else changes |
| `DescriptorLaws.PipeMeans` | fs/fd.c:88-126 | a pipe takes the two lowest descriptors and the two lowest files, or nothing |
| `DescriptorLaws.CloseMeans` | fs/fd.c:128-162 | a close empties the one descriptor; one that is not open changes nothing |
| `DescriptorLaws.ExitMeans` | kernel/task/task.c:347-350 | after an exit the task has no descriptors and all others have theirs |
| `DescriptorLaws.ReadMeans` | fs/fd.c:186-190 | one round of a read takes the oldest byte if there is one, and changes nothing else |
| `DescriptorLaws.WriteMeans` | fs/fd.c:235-243 | one round of a write adds its byte last if there is a reader and room, and changes nothing else |
| `PipeRuns.StepKeepsGood` | fs/fd.c:164-249 | every call keeps in addition: bytes taken, then bytes buffered, are the bytes put; each pipe made is allocated or was freed once |
| `PipeRuns.RunKeepsGood` | fs/fd.c:31-249 | all of this in every run, with exact counts unless a task got no stack |
| `PipeRuns.NothingLeaks` | fs/fd.c:128-162 | with exact counts, empty tables mean no open file and no pipe |
| `PipeRuns.NoWriterReappears` | fs/fd.c:136-146 | a pipe without writers (or readers) never gets one again |
| `PipeRuns.EndStaysUnlessWritten` | fs/fd.c:186-195 | an empty pipe without writers stays so exactly until something is written to it |
| `PipeRuns.OnlyReadersWrite` | fs/fd.c:235-249 | such a write comes through a descriptor opened for reading |
| `PipeRuns.EndIsFinal` | fs/fd.c:186-195 | in runs that write through writing descriptors only, the end of a stream is final |
| `PipeRuns.EndIsNotAlwaysFinal` | fs/fd.c:235-243 | a run in which a byte follows the end |
| `PipeRuns.OwnTableOnly` | kernel/task/task.c:185-245 | a call changes no other task's descriptors |
| `PipeRuns.WaitingPipeStays` | fs/fd.c:176-195 | while a task waits in a read or write, its pipe stays the same and allocated |
| `PipeRuns.StepRecords` | fs/fd.c:164-249 | the records of bytes put and taken only grow, by writes and by reads |
| `Descriptors.PickedAll` | fs/fd.c:176-195 | bytes picked in order from a stretch of their own length are the whole stretch |
| `Descriptors.Kernel.FdInherit` | fs/fd.c:31-45 | the loop does what inheritance of all slots means, and only touches allocated pipes |
| `Descriptors.Kernel.RedirectSlot` | kernel/task/task.c:187-205 | the statements of one redirection are the redirection step |
| `Descriptors.Kernel.CreateProcess` | kernel/task/task.c:162-254 | the descriptor part of creation is the spawn event, failure included |
| `Descriptors.Kernel.SysOpen` | fs/fd.c:47-86 | is the open event, with the descriptor it returns; -1 for a missing file without O_CREAT |
| `Descriptors.Kernel.SysPipe` | fs/fd.c:88-126 | is the pipe event, with the two descriptors it returns |
| `Descriptors.Kernel.SysClose` | fs/fd.c:128-162 | is the close step; -1 exactly for a descriptor that is not open |
| `Descriptors.Kernel.ExitProcess` | kernel/task/task.c:347-350 | is the exit event |
| `Descriptors.Kernel.SysReadPipe` | fs/fd.c:164-197 | whatever others do before every round, a short read happens only at the end of the stream, and the bytes returned are, in order, the ones this call added to the record of bytes taken; without other readers they are the whole stretch, and undisturbed the oldest bytes of the ring; exact counts stay exact unless another task got no stack |
| `Descriptors.Kernel.SysWritePipe` | fs/fd.c:211-249 | whatever others do before every round, -1 only without readers, and the bytes reported as written are in the record of bytes put, in order; without other writers they are the whole stretch, and undisturbed they come last in the ring; it waits only on a full ring; exact counts stay exact unless another task got no stack |
| `TaskRing.CleanupKeeps` | kernel/task/task.c:96-134 | exactly the live tasks stay; current task and ready_queue are live |
| `TaskRing.StepKeeps` | kernel/task/task.c:278-374 | scheduling, exit, creation and sleeping keep a ring of distinct tasks with a live current task |
| `TaskRing.RunKeeps` | kernel/task/task.c:278-374 | in every run |
| `TaskRing.ScheduleMeans` | kernel/task/task.c:289-310 | a switch goes to the next task on the ring that is ready, running, or asleep with its time come, and stays only if there is none; a sleeper it goes to runs; all other tasks and all waking times are as before |
| `TaskRing.ExitMeans` | kernel/task/task.c:352-364 | the current task is dead, the next live one goes on, ready if it slept, and no other task changes |
| `TaskRing.CreateMeans` | kernel/task/task.c:278-287 | the new task is ready and comes right behind ready_queue; nothing else changes but that the dead are gone |
| `TaskRing.CleanupMeans` | kernel/task/task.c:96-134 | ready_queue goes on to the first live task from where it was |
| `TaskRing.SleepMeans` | kernel/task/task.c:380-383 | the current task sleeps until its tick; nothing else changes |
| `TaskRing.StepDistance` | kernel/task/task.c:289-310 | a switch that does not pick a task that is due, awake or asleep with its time come, shortens its distance on the ring; a creation adds at most one |
| `TaskRing.BoundedWaiting` | kernel/task/task.c:289-374 | a task that is due whenever the scheduler runs is passed over by fewer switches than its distance plus the processes created |
| `TaskList.Scheduler.CleanupZombies` | kernel/task/task.c:96-134 | on any ring and any set of dead tasks the walk ends with exactly the live tasks in their order, every dead one freed once, and the current task the first live one from the old one on, or an empty ring |
| `TaskList.Scheduler.Predecessor` | kernel/task/task.c:115-116 | the search ends at the task before the dead one |
| `TaskList.Scheduler.TaskScheduler` | kernel/task/task.c:289-310 | cleanup and the walk along `next` are the schedule step |
| `TaskList.Scheduler.ExitProcess` | kernel/task/task.c:352-364 | the walk past the dead is the exit step |
| `TaskList.Scheduler.CreateProcess` | kernel/task/task.c:278-280 | the two pointer writes insert the task right behind ready_queue |
| `Signals.ChosenLeast` | kernel/task/task.c:610-619 | the signal taken is the lowest pending one that is not ignored |
| `Signals.DeliverMeans` | kernel/task/task.c:604-640 | its handler is entered with the interrupted frame saved, or its default action taken |
| `Signals.StepKeepsFrame` | kernel/task/task.c:604-649 | inside a handler the saved frame does not change, and leaving resumes with it |
| `Signals.ResumesInterrupted` | kernel/task/task.c:642-649 | after any number of handlers, one after the other, the task goes on with exactly the interrupted frame |
| `Signals.RunCounted` | kernel/task/task.c:581-640 | in every run a signal is delivered no more often than sent, and SIGKILL is neither pending nor delivered |
| `Signals.SendMeans` | kernel/task/task.c:581-599 | a signal from 1 to 31 becomes pending, 9 marks the task for its end, and nothing else happens |
| `Signals.InterruptTakes` | kernel/task/task.c:604-640 | outside a handler the next interrupt takes the lowest pending signal that is not ignored: its handler is entered with the frame saved, or its default action taken |
| `Signals.InterruptLeaves` | kernel/task/task.c:604-640 | inside a handler, for tasks 0 and 1, and when all is ignored, the task goes on as it was |
| `Signals.ReturnIsInterrupt` | kernel/task/task.c:642-649 | leaving a handler is an interrupt where it was entered |
| `Signals.ActionSets` | kernel/syscalls/syscalls.c:567-570 | the handler of a signal is the one set last, 0 if none was |
| `Signals.StaysPending` | kernel/task/task.c:604-640 | in every step a pending signal stays pending until a check ignores it or takes it |
| `Signals.ReturnTakes` | kernel/task/task.c:642-649 | a signal sent during a handler is taken when that returns, with the frame interrupted first |
| `Signals.Task.SendSignal` | kernel/task/task.c:581-599 | is the send step |
| `Signals.Task.CheckSignals` | kernel/task/task.c:604-640 | the loop is the check step |
| `Signals.Task.SigReturnCall` | kernel/syscalls/syscalls.c:572-575 | restores the saved frame and checks again before it is used |
| `Signals.Task.SigActionCall` | kernel/syscalls/syscalls.c:567-570 | sets the handler of signals 1 to 31, then checks |
| `Terminal.PutValid` | userland/apps/gterm.c:111-200 | no character takes the cursor or a write off the grid |
| `Terminal.MoveKeepsTop` | userland/apps/gterm.c:146-161 | a cursor movement does not scroll, and addresses row and column from the top of the screen |
| `TerminalDriver.Emulator.PutChar` | userland/apps/gterm.c:111-200 | the statements on fields and grid are the step of the state machine |
| `TerminalDriver.Emulator.Newline` | userland/apps/gterm.c:89-109 | line feed with the shift of the scrollback by 100 lines |
| `TerminalDriver.Emulator.Erase` | userland/apps/gterm.c:134-145 | blanks exactly the screen's cells |
| `TerminalDriver.Emulator.SetColours` | userland/apps/gterm.c:119-133 | the loop applies all codes of the sequence in order |
| `TerminalDriver.Emulator.MoveCursor` | userland/apps/gterm.c:146-161 | parameters parsed, clamped and applied |
| `TerminalLaws.LineFeed` | userland/apps/gterm.c:89-92 | the cursor goes to the start of the next line and the grid stays |
| `TerminalLaws.LineFeedAtEnd` | userland/apps/gterm.c:94-107 | on the last line every cell moves up by 100 lines, the last 100 are blank, and the cursor is in line 900 |
| `TerminalLaws.Writes` | userland/apps/gterm.c:191-198 | a character is written at the cursor, in the given colour or the terminal's own |
| `TerminalLaws.Wraps` | userland/apps/gterm.c:192 | at the right margin it is a line feed and then the character |
| `TerminalLaws.Backspaces` | userland/apps/gterm.c:188-189 | the character before the cursor becomes a blank; at the start of a line nothing happens |
| `TerminalLaws.BackspaceUndoes` | userland/apps/gterm.c:188-198 | after a character and a backspace the cursor is where it was, on a blank |
| `TerminalLaws.Opens` | userland/apps/gterm.c:112-184 | how a sequence begins, collects its parameters, and is dropped |
| `TerminalLaws.Moves` | userland/apps/gterm.c:162-178 | A, B, C and D move by their number, by one for 0, and stop at the edges |
| `TerminalLaws.Positions` | userland/apps/gterm.c:146-161 | H goes to a row and a column of the screen, or the nearest there are |
| `TerminalLaws.PositionsShort` | userland/apps/gterm.c:146-161 | what is not given counts as 1, and f is H |
| `TerminalLaws.Erases` | userland/apps/gterm.c:134-145 | J blanks every cell of the screen in the current background and no other |
| `TerminalLaws.OtherLetters` | userland/apps/gterm.c:117-180 | other letters do nothing |
| `TerminalLaws.Colours` | userland/apps/gterm.c:119-133 | m sets one of sixteen colours, bright ones from 90 and 100 on, or resets both |
| `TerminalLaws.ColoursInTurn` | userland/apps/gterm.c:121-132 | two codes in one sequence act one after the other |
| `Render.FormatInt` | userland/lib/oslib.c:50-70 | the digit loops print the decimal number |
| `Render.AtoiOfDecimal` | userland/lib/oslib.c:252 | and the terminal reads it back |
| `Render.FeedCup` | userland/apps/gterm.c:146-161 | the emitted position sequence puts the cursor on that cell and changes nothing else |
| `Render.FeedCol` | userland/apps/gterm.c:119-133 | the emitted colour sequences set exactly the colours meant |
| `Render.FeedCell` | userland/apps/nani.c:193-210 | the output for one changed cell draws that cell only, and the editor's idea of cursor and colour stays right |
| `Render.Screens.RenderScreen` | userland/apps/nani.c:179-216 | its output, fed to any terminal that shows what the front screen records, makes every cell but the bottom right one show the back screen, touches nothing off the screen, and leaves front equal to back there; without differences it is only the colour reset |
| `Editor.SplitsText` | userland/apps/nani.c:18-22 | the text before and after the cursor is the whole text |
| `Editor.PressRefines` | userland/apps/nani.c:266-275 | every key inserts, deletes or moves in the flat text as it should, or does nothing at a size limit; Up and Down reach the neighbouring row, at the same column or the end of a shorter row |
| `Editor.LimitsAre` | userland/apps/nani.c:218-249 | the size limits that stop a key: 255 characters, 2000 lines, and 255 for a joined line |
| `Editor.RowAndColumn` | userland/apps/nani.c:18-22 | line and column are the newlines before the cursor and the characters since the last one |
| `Editor.EnterThenBackspace` | userland/apps/nani.c:226-249 | enter then backspace restores everything exactly when the line has fewer than 255 characters (or neither can act) |
| `Editor.LoadOfSaved` | userland/apps/nani.c:52-100 | loading what was saved gives the same lines and one empty line more, unless there are 2000 |
| `Editor.LoadOK` | userland/apps/nani.c:61-75 | whatever the bytes, the lines loaded are a document within the limits, to which `PressRefines` applies |
| `Editor.LoadIs` | userland/apps/nani.c:61-75 | the lines loaded are the pieces between newlines, the last one without a newline included, without carriage returns, each cut at 255 characters, at most 2000 |
| `Editor.Nani.InsertKey` | userland/apps/nani.c:218-224 | is the insertion |
| `Editor.Nani.HandleEnter` | userland/apps/nani.c:226-233 | the shifting loop and the cut are the line split |
| `Editor.Nani.HandleBackspace` | userland/apps/nani.c:235-249 | is the deletion or the join of two lines |
| `Editor.Nani.MoveCursor` | userland/apps/nani.c:266-269 | the arrow keys |
| `Editor.Nani.SaveFile` | userland/apps/nani.c:79-100 | the buffer is every line followed by a newline |
| `Editor.Nani.LoadFile` | userland/apps/nani.c:52-77 | an empty file changes nothing; otherwise the loop reads lines as the parser does, and they are a document within the limits |
| `PathText.ComponentsJoin` | kernel/utils/utils.c:265-271 | joining two texts with a slash joins their components |
| `AbsPath.GetAbsolutePath` | kernel/utils/utils.c:256-281 | the loops compute the parsed, resolved and printed path |
| `AbsPath.AbsoluteCanonical` | kernel/utils/utils.c:265-280 | the result has no empty, `.` or `..` component and at most 64 |
| `AbsPath.ParsePrinted` | kernel/utils/utils.c:264-280 | parsing a printed canonical path gives its components back |
| `AbsPath.Idempotent` | kernel/utils/utils.c:256-281 | a result resolves to itself from any directory |
| `AbsPath.Composes` | kernel/utils/utils.c:256-281 | resolving a nonempty path and then a relative one is resolving them joined, whatever the depth |
| `AbsPath.Descends` | kernel/utils/utils.c:265-275 | behind any path a name goes one level down, up to 64, `.` stays, and `..` drops the last component |
| `AbsPath.UpUndoesDown` | kernel/utils/utils.c:265-275 | a name and then `..` lead back |
| `AbsPath.PrintedIs` | kernel/utils/utils.c:276-280 | the result has one slash before each component, and is a slash if there is none |
| `AbsPath.StartsFrom` | kernel/utils/utils.c:258-263 | an absolute path ignores the directory, a relative one is resolved below it |
| `AbsPath.EmptyLosesDirectory` | kernel/utils/utils.c:258-263 | with an empty first path, for every second one: it is when that is absolute or comes by the root directory, it is not when the two ways end at different depths, and below the depth limit these are all cases |
| `AbsPath.LimitHides` | kernel/utils/utils.c:265-274 | at the depth limit it can be without coming by the root |
| `AbsPath.ResultFits` | kernel/utils/utils.c:276-280 | the result is no longer than the parsed text, plus one if that is not absolute |
| `DiskCache.StoreKeeps` | fs/cache.c:47-63 | a store keeps valid entries in front, one per sector, each with the data last stored |
| `DiskCache.LeastRecentlyUsed` | fs/cache.c:52-56 | with a time of its own for every use, the target in a full cache is the entry whose last use is the oldest |
| `DiskCache.UseRecorded` | fs/cache.c:35-63 | a hit or a store keeps every entry stamped with the time of its sector's last use |
| `DiskCache.Cache.InitDiskCache` | fs/cache.c:28-33 | nothing is cached |
| `DiskCache.Cache.CacheRead` | fs/cache.c:35-45 | a hit exactly when the sector is cached, with the data last stored; the access time is renewed and the use recorded |
| `DiskCache.Cache.FindTarget` | fs/cache.c:49-56 | the sector's own entry, else the first unused, else the one with the smallest time |
| `DiskCache.Cache.CacheWriteThru` | fs/cache.c:47-63 | exactly the target entry changes, and in a full cache that is the one used least recently of all calls so far, if each had its own time |
| `DiskCache.Disk.ReadSector` | drivers/file/ATA/ATA.c:88-126 | succeeds exactly for a known drive that works or a cached sector, with what a plain disk would give, and the sector is cached then |
| `DiskCache.Disk.WriteSector` | drivers/file/ATA/ATA.c:128-165 | a write changes the one sector of that plain disk, keeps the cache coherent, and the sector is cached then |
| `EdgeSort.MedianFirst` | disk/include/stb_truetype.h:3424-3444 | the pivot comes first, and one of the other two will stop the upward scan |
| `EdgeSort.ScanUp` | disk/include/stb_truetype.h:3452-3454 | the scan without a bounds test stops inside the range |
| `EdgeSort.ScanDown` | disk/include/stb_truetype.h:3455-3457 | so does the downward one |
| `EdgeSort.Partition` | disk/include/stb_truetype.h:3446-3466 | ends with i equal to j or j + 1 inside the range, nothing above the pivot before i and nothing below it after j; a permutation; if the pivot's key is its own, i is j + 1 and element j is left to neither call |
| `EdgeSort.Quicksort` | disk/include/stb_truetype.h:3417-3477 | ends, stays in its range, permutes it, and recurses no deeper than the logarithm of its size |
| `EdgeSort.InsertionSort` | disk/include/stb_truetype.h:3399-3415 | a sorted permutation |
| `EdgeSort.SortEdges` | disk/include/stb_truetype.h:3479-3483 | a permutation of the first n edges in the order of their upper ends, the rest untouched |

## Left out

- FAT32: long-name entries are assumed absent; disk calls succeed; sector writes are grouped by cluster; the directory and file loop limits are fields of the geometry that `Mount` sets to 1000 and 2000000.
- FAT32: every table entry is in range or an end mark; the file-level results are for volumes that are well formed at the start, with names unique in their directory, counting volume labels.
- Fat32.Driver.MkDir: requires that the clusters its lookups go to are in the table; through the bytes of a file these may be anything (see `MakeReaches`).
- Fat32.Driver.DeleteFile: requires that the clusters its lookup and its search go to are in the table, and the first cluster of what it deletes; the sectors behind the table are not part of the model (see `Reaches`).
- Fat32.Driver.WriteFile: requires the same of its deletion and of its own lookup (see `WriteReaches`); data of 2 GiB and more, where the source's cluster arithmetic wraps, is out of the model.
- Fat32.Driver.FindEntry: a cluster number behind the table ends the search here, where the source goes on with the sectors that lie there; the calls that change a volume require that this does not happen.
- Fat32.Driver.GetClusterForPath: the same for every name of the path.
- Fat32.Driver.ReadFile: from 2 GiB on the source copies a negative number of bytes; only the number returned is promised.
- FAT32: the path buffers of 256 and 64 bytes are taken to suffice; for paths of several slashes only, the source leaves the type of the node unset, and the model says directory.
- Fat32.Driver.Mount: parsing of the partition table and the boot sector is replaced by parameters.
- `fat32_readdir`, which only reads, and the mount table and special files of the virtual file system above the driver.
- Heap.Kernel.KFree: takes NULL or the payload of a block in the list; a header absorbed by an earlier merge still carries its mark, so freeing a stale pointer is not the no-op it looks like.
- Heap.Kernel.KMallocA: the word before the pointer is kept apart from the headers; for requests that wrap to less than a page (`WrapRange`) only the pointers are promised, because the word may lie in a header.
- Descriptors: sockets, buffered regular files and console output on descriptors 1 and 2; kernel memory for a pipe is assumed to be there; pipes are told apart by number, not by address.
- Descriptors: other tasks run before every round of a pipe loop and between calls; an interrupt in the middle of a round or of another call is not part of the model.
- Descriptors.Kernel.CreateProcess: redirections are taken to name a descriptor from 0 to 15 or to be -1; the source tests no bounds.
- Tasks: memory teardown, page directories, parents, and the kill flag; a task exits only while another one lives.
- Signals: the mask of pending signals is a set of numbers; other tasks' signals are independent of this one's.
- Terminal: parameters beyond 32 bits do not wrap; `term_clear`, the prompt and scrolling by the user are not part of the model.
- Render.Screens.RenderScreen: back characters are neither 0, 8, 10, 13 nor 27 and colours not 255; output is one sequence, not pieces of 8000 characters.
- Editor: lines hold no zero byte, and typed characters are no newlines; drawing of header, footer and scrolling is not part of the model.
- AbsPath.GetAbsolutePath: the buffers of 512 and 256 bytes are taken to suffice; components are slices instead of pieces cut in place.
- DiskCache: drives answer through a parameter; ports and registers are not part of the model.
- EdgeSort: coordinates are real numbers, so that comparison is a strict weak order.
- Device drivers, networking, graphical programs, ELF loading and paging.
