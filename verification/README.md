# RonaldinhOS verification

Dafny models of the four stateful parts of a small distributed operating system, each proved against a simpler
description of what it is for. Where the code departs from its own intent the model follows the code, a concrete
input shows the difference, and the exact condition under which the code does what was meant is proved.

## What is modelled

**DialFS, a file system of contiguous blocks.** `DiskModel` has the state: the bitmap, one record for each file and
the bit array of contents. `Moves` and `Compaction` are about sliding files that may overlap their old place;
`CompactionExact` says which files survive it, `Packed` and `FreeSpace` what the disk is afterwards; `DiskOps`,
`Truncate`, `Extension`, `TruncateOutcome`, `TruncateAnswers` and `TruncateContents` are about create, delete, write and truncate,
`MeantTruncate` about what truncate was meant to do; `DiskRuns` and `DiskContents` about any sequence of them. `DialFs.Device` is the imperative device:
arrays set bit by bit in loops, proved against those functions. `BitStrings` converts bytes and bits, `MetadataText` is how
a number gets into a metadata record.

**Paged memory, MMU and TLB.** `Paging` and `FreshPages` are the recursive allocation, `Resizing` and
`ResizeProof` creation, growth and reduction of page tables, `FlatMemory`, `FlatWrites` and `FlatWritesExact` the refinement of reads and writes
that chain from page to page to one flat byte sequence. `MemoryModule.MemoryServer` is the imperative memory module.
`TlbModel`, `LruStack` and `FifoOrder` are the TLB and its replacement algorithms, `Mmu.Unit` the imperative MMU, and
`ProcessMemory` and `TranslatedAccess` put memory and CPU together.

**The kernel.** `KernelModel` is a transition system: queues, counting semaphores, the degree of multiprogramming, the
released pids and, for each thread, the place it has reached. A step is one critical section, one semaphore operation
or one message, so all interleavings are runs. `KernelInvariant` proves the invariant step by step, `KernelRuns`,
`KernelQueues`, `WaitOrder` and `KernelEnds` what follows for runs, `Scheduler.Queues` that the operations on the queues are such steps.
`ResourceModel`, `ResourceSafety` and `ResourceTable` do the same for WAIT, SIGNAL and release, `DoubleWaking` is a run
that goes wrong, and `KernelResources` joins scheduler and resources into one kernel. `BlockedList` and `Lists` are the
lists they share.

**Codecs.** `Stream` and `PcbCodec` are the process control block as bytes, `IoText` the text of IO instructions,
`SplitAccess` the registers that lie on two pages. `CTypes` has the shared number types and helpers.

## Where the code and its intent differ

- A read of a file takes one byte more than asked for and drops zero bytes, so a move keeps exactly the files of
  `Moves.MoveKeepsBytesIff` and a compaction those of `CompactionExact.CompactionKeepsBytesIff`; a file without zero bytes always survives.
  The byte too many can fall on the first byte of the next file (`TruncateContents.MovedOther`).
- The compacting branch of truncate hands over a number of blocks where bytes are expected and never records the new
  size. When it succeeds it leaves marked blocks that no file owns. `TruncateOutcome` proves what it does, on disks with such
  marks too, `MeantTruncate` what it would do with bytes and with the size stored.
- A file moved away from block 0 leaves its blocks marked, because the freeing loop compares unsigned numbers.
- A metadata field is saved through ten characters, so a number of ten digits loses its last one.
- A reduction keeps one page too many, and creation reports success when it failed.
- Reads from the middle of a page that end before its end, and writes from the middle that spill over, are faults or
  go astray; the exact conditions are `FlatMemory.ReadIsFlat` and `FlatWritesExact.WriteFlatIff`.
- The TLB is not told of reductions, and its clock is compared in 32 bits.
- Kills in NEW, READY and AUX do not take back the semaphores; a kill of a process an interface works for leaves an
  answer without a process.
- SIGNAL with two or more waiters neither wakes nor answers; two threads can search
  for the same waiter, and then the second waking crashes or lets a process run without a unit; a killed waiter
  lets another in for a unit nobody gave back.
- Memory reads a number most significant byte first, the CPU joins the parts of a split one least significant first.

## Model

| member | source | states |
|---|---|---|
| `Compaction.CompactionPreserves` | entradasalida/src/utils_io.c:742-768 | From any laid-out disk, the file at place j of the sorted listing keeps its size, starts where the files before it end, and keeps its contents bit for bit when it lay in place or has no zero byte |
| `CompactionExact.CompactionKeepsBytesIff` | entradasalida/src/utils_io.c:708-768 | For every file, with zero bytes or without, from the disk before the call: compaction keeps its bytes if and only if it is in place, or each of its zero bytes is followed by zeros only up to the byte after the file and lies over a zero at the destination, whose first byte counts as the byte that spills over from the file before when that one moves, fills its blocks, and neither it nor the byte after it is zero |
| `CompactionExact.AboveUnchanged` | entradasalida/src/utils_io.c:756-764 | Before the slide of a file nothing has changed from one byte after its destination on |
| `Compaction.CompactionBitmap` | entradasalida/src/utils_io.c:722-735 | After compaction a bit is set iff its block is below the total of the files' blocks, or was set without an owner before |
| `Compaction.SlideStaysBelow` | entradasalida/src/utils_io.c:716-738 | A slide, with the one byte it writes too many, ends at or below the first block of every file that still waits: nothing is overwritten before it is read |
| `Compaction.SlideReady` | entradasalida/src/utils_io.c:756-764 | At every round of the loop the new position is at or below the file's block and the move is defined |
| `Packed.PackedOwned` | entradasalida/src/utils_io.c:756-764 | The compacted files cover exactly the blocks below their total |
| `Packed.PackedAllotted` | entradasalida/src/utils_io.c:742-768 | After compaction every file owns a run of marked blocks in range, and runs are disjoint, whatever marks without an owner there were |
| `Packed.PackedOrphans` | entradasalida/src/utils_io.c:742-768 | Compaction takes away exactly the marks without an owner below the total |
| `Packed.CompactionConsistentIff` | entradasalida/src/utils_io.c:742-768 | The compacted disk marks exactly the owned blocks if and only if no block at or above the total was marked without an owner |
| `Packed.CompactionKeeps` | entradasalida/src/utils_io.c:742-768 | With blocks for every file, compaction keeps the allotment, and the consistency of a consistent disk |
| `FreeSpace.BlocksConserved` | entradasalida/src/utils_io.c:817-820 | The blocks of all files and the blocks nobody owns add up to the disk |
| `FreeSpace.SpaceConserved` | entradasalida/src/utils_io.c:817-820 | On a consistent disk the blocks of all files and the free blocks add up to the disk |
| `Moves.TextOfFile` | entradasalida/src/utils_io.c:462-488 | What a move carries is the file's bytes and one byte more, without the zero bytes |
| `Moves.MovedBytes` | entradasalida/src/utils_io.c:708-740 | Byte by byte, the new place holds the carried text and after it what was there before |
| `Moves.MoveKeepsBytesIff` | entradasalida/src/utils_io.c:708-740 | Exactly when a move keeps the bytes of the file, from the file, the byte after it and the bytes at the destination; overlapping source and destination included |
| `Moves.MoveFrame` | entradasalida/src/utils_io.c:738-738 | A move writes nothing outside the file's size and one byte from the new start |
| `DiskModel.BlocksHoldBytes` | entradasalida/src/utils_io.c:817-820 | Below the limit the block count holds the bytes and one block fewer would not |
| `DiskModel.BlocksCoverIff` | entradasalida/src/utils_io.c:817-820 | For all 32-bit sizes: the block count is enough iff the unsigned addition does not wrap or one block suffices |
| `DiskModel.HighestRun` | entradasalida/src/utils_io.c:670-706 | The result starts a free run, no free run of that length starts above it, and -1 only when there is none |
| `DialFs.JumpLosesNoRun` | entradasalida/src/utils_io.c:689-700 | Jumping below a taken block loses no candidate run |
| `DialFs.SkipLosesNoRun` | entradasalida/src/utils_io.c:683-687 | Skipping the file's own blocks loses no candidate run |
| `DialFs.Device.CanRelocateAtTheEnd` | entradasalida/src/utils_io.c:670-706 | The search loop returns the start of the highest free run, -1 iff there is none, and terminates |
| `DialFs.Device.CanRelocate` | entradasalida/src/utils_io.c:639-668 | The search returns the lowest free block whatever length is asked for, because its inner loop tests one bit |
| `DialFs.Device.NextBlocksAvailable` | entradasalida/src/utils_io.c:606-613 | True iff all the blocks asked for exist and are free |
| `DialFs.Device.FsRead` | entradasalida/src/utils_io.c:462-488 | The bit loop reads the bytes from the pointer on, one more than asked for, without the zero bytes; a missing file gives none |
| `DialFs.Device.FsWrite` | entradasalida/src/utils_io.c:490-509 | The bit loops overlay exactly the bits of the data at the pointer and change nothing else |
| `DialFs.Device.Realocate` | entradasalida/src/utils_io.c:708-740 | Read, free from the last block down, mark, record and write: the new disk is the specified move, the wrap of the freeing loop at block 0 included |
| `DialFs.Device.Compaction` | entradasalida/src/utils_io.c:742-768 | The loop over the listing taken once computes the specified compaction |
| `DialFs.Device.ListMetadata` | entradasalida/src/utils_io.c:744-752 | The listing names every file once, in ascending order of first blocks |
| `DialFs.Device.FsCreate` | entradasalida/src/utils_io.c:299-329 | Adds an empty record, or nothing when the file exists |
| `DialFs.Device.FsDelete` | entradasalida/src/utils_io.c:430-460 | Frees exactly the file's blocks and removes its record |
| `DialFs.Device.FsTruncate` | entradasalida/src/utils_io.c:331-428 | Disk and return value are the specified outcome in every branch, and the value is 0 exactly when the file is missing, has no block and none is free, or compacts without room for the extension; 1 in every other case |
| `DialFs.Device.CompactAndExtend` | entradasalida/src/utils_io.c:398-415 | The compacting branch with the block count passed as a byte size, as coded |
| `DiskOps.CreateKeeps` | entradasalida/src/utils_io.c:299-329 | Create keeps the allotment (each file fresh or with its own run of marked blocks) and exactly the marks without an owner, so a consistent disk stays consistent |
| `DiskOps.DeleteKeeps` | entradasalida/src/utils_io.c:430-460 | Delete keeps the allotment and exactly the marks without an owner: all of the deleted file's blocks are free afterwards |
| `DiskOps.DeleteUndoesCreate` | entradasalida/src/utils_io.c:299-460 | A created file is there and empty, and deleting it gives back the same disk |
| `DiskOps.WriteKeeps` | entradasalida/src/utils_io.c:490-509 | Write keeps the allotment and the marks without an owner |
| `DiskOps.WriteThenRead` | entradasalida/src/utils_io.c:462-509 | Any non-empty zero-free data written at any bit pointer in range is read back with a length one less |
| `DiskOps.WriteThenReadAll` | entradasalida/src/utils_io.c:473-484 | Read back with its own length it comes out right if and only if the byte after it is zero |
| `Truncate.FreshFitsIff` | entradasalida/src/utils_io.c:349-376 | A first truncate happens in place iff the lowest free block starts a long enough free run |
| `Truncate.RootedKeeps` | entradasalida/src/utils_io.c:349-362 | Giving a file its first block keeps the allotment and exactly the marks without an owner |
| `Truncate.ResizedKeeps` | entradasalida/src/utils_io.c:363-426 | Growing or shrinking in place keeps the allotment and exactly the marks without an owner |
| `Truncate.ResizedContent` | entradasalida/src/utils_io.c:363-426 | A truncate in place keeps the first min(old, new) bytes of the file and all of every other |
| `Extension.LastIffAbove` | entradasalida/src/utils_io.c:400-403 | After the move the file is the last of the listing iff its target lies above every other file |
| `Extension.ExtensionCheck` | entradasalida/src/utils_io.c:403-414 | After move and compaction, on every laid-out disk and for either size handed over, the extension succeeds exactly when the target was above every other file, the added blocks fit, and none of them is marked without an owner, be it from before or because the file left block 0 |
| `TruncateOutcome.TruncateRecordsIff` | entradasalida/src/utils_io.c:331-428 | Exactly when truncate records the requested size: in place with at most nine digits; the compacting branch never does |
| `TruncateAnswers.TruncateAnswersIff` | entradasalida/src/utils_io.c:331-428 | A truncate answers 0 or 1 in every branch, and 0 iff, on the disk before the call, the file is missing, or has no block and no block is free, or the truncate compacts and there is no room for the extension; without a run to move to it answers 1 |
| `TruncateAnswers.PlainOutcome` | entradasalida/src/utils_io.c:349-426 | A truncate without compaction: where the file starts, its recorded size, every other record, and every bit of the bitmap, from the disk before the call |
| `TruncateAnswers.CompactingBit` | entradasalida/src/utils_io.c:398-415 | Every bit after the compacting branch: set iff the block is below the packed files' end, or below the end of the extension if there was room, or was left marked without an owner |
| `TruncateAnswers.CompactingFiles` | entradasalida/src/utils_io.c:398-415 | Every record after it: packed from block 0 in the order of the listing, sizes kept, the truncated file's the number of its blocks |
| `MetadataText.StoredIs` | entradasalida/src/utils_io.c:562-574 | For every 32-bit number: what a metadata field holds after a save is what the first nine characters of the decimal form spell |
| `TruncateOutcome.TruncateKeeps` | entradasalida/src/utils_io.c:331-428 | Every truncate, in each branch, keeps the allotment, on disks with marks without an owner too; without the compacting branch it adds no such mark |
| `TruncateOutcome.CompactingReportsIff` | entradasalida/src/utils_io.c:398-415 | Exactly when the compacting branch returns 1, in terms of the disk before the call, which may have marks without an owner |
| `TruncateOutcome.ConsistentClear` | entradasalida/src/utils_io.c:398-415 | On a consistent disk the marks in the way are those a file leaves at block 0: the condition is one on numbers |
| `TruncateOutcome.CompactingConsistentIff` | entradasalida/src/utils_io.c:398-415 | Exactly when the compacting branch leaves a consistent disk, from the disk before the call: it has no room for the extension, or the target is not above every other file, and no mark without an owner is left above the packed files |
| `MeantTruncate.MeantTruncateIff` | entradasalida/src/utils_io.c:331-428 | Truncate as meant, with the byte size handed to the move and the new size stored afterwards: a consistent disk in every case, and success exactly when the file fits in place or its target is above every other file and the free blocks suffice; then the new size is recorded |
| `MeantTruncate.GrownIff` | entradasalida/src/utils_io.c:398-415 | The compacting branch as meant: success if and only if the target is above every other file and the total of free blocks suffices; consistent either way, the new size recorded exactly on success, all other sizes kept |
| `MeantTruncate.GrownBytes` | entradasalida/src/utils_io.c:398-415 | The bytes of every zero-free file after the branch as meant, wherever its target lies: all of them, the grown file's included, except that the moved file can write over the first byte of the file that begins where the target run ends |
| `MeantTruncate.GrownKeepsBytesIff` | entradasalida/src/utils_io.c:398-415 | Exactly when such a file keeps all its bytes: it does not begin where the target run ends, or the moved file does not fill its blocks, has a zero byte or a zero after it, or the byte is the same; and whenever the branch succeeds |
| `TruncateContents.MovedOther` | entradasalida/src/utils_io.c:708-740 | The bytes of every other file after the move, zeros or not: unchanged but for the first byte of the file that begins where the moved file's old length in blocks ends, if the moved file spills |
| `TruncateContents.ShiftedOther` | entradasalida/src/utils_io.c:398-403 | Through move and compaction a zero-free file keeps what the move left |
| `TruncateContents.ShiftedOwn` | entradasalida/src/utils_io.c:398-403 | The moved file comes out with as many of its first bytes as the size handed over says |
| `TruncateOutcome.TruncateLosesBytes` | entradasalida/src/utils_io.c:402-416 | A disk of eight blocks on which growing a file of three bytes to five returns success and leaves it with two |
| `DiskRuns.SmallDiskReached` | entradasalida/src/utils_io.c:299-428 | That disk is what creating and truncating its two files on a formatted one gives |
| `DiskRuns.RunKeeps` | entradasalida/src/utils_io.c:299-460 | Over all runs of create, delete, write inside a file's blocks, truncate with every outcome, and compaction: every file is fresh or owns one run in range, runs are disjoint, and owned blocks are marked |
| `DiskRuns.KeptFromFormatted` | entradasalida/src/utils_io.c:263-297 | So it is after every such run from a formatted disk |
| `DiskRuns.StepConsistentIff` | entradasalida/src/utils_io.c:299-460 | A step keeps a consistent disk consistent if and only if it is not a truncate through compaction, or one that has no room for the extension and leaves no mark behind |
| `DiskRuns.RunConsistent` | entradasalida/src/utils_io.c:299-460 | Over all runs of such steps a bit is set iff a file owns its block |
| `DiskRuns.UntouchedFileSurvives` | entradasalida/src/utils_io.c:299-460 | Over all runs, successful truncates through compaction included, a zero-free file keeps its bytes wherever compactions put it, as long as no step names it or moves another file that spills into it |
| `DiskContents.StepRefines` | entradasalida/src/utils_io.c:299-509 | Every step of the disk is a step of the map from names to bytes: create adds an empty file, delete takes one away, a write replaces bits inside one file, a truncate in place keeps the beginning and fixes the length, a compaction keeps sizes and zero-free files; a truncate through compaction keeps the sizes of the others, a beginning of a zero-free file itself, and all zero-free others but for the first byte of the one listed right after it |
| `DiskContents.RunRefines` | entradasalida/src/utils_io.c:299-509 | Every run of the disk, with truncates of every outcome, is a run of that map |
| `DiskContents.ReadIsContents` | entradasalida/src/utils_io.c:462-488 | A read of a whole file gives its bytes in the map without the zeros |
| `DiskRuns.WriteContent` | entradasalida/src/utils_io.c:490-509 | A write inside a file overlays its own contents at the pointer |
| `BitStrings.IntToBinary8Bits` | utils/src/utils.c:1461-1473 | The loop gives the eight low bits, most significant first |
| `BitStrings.BinaryToInt8Bits` | utils/src/utils.c:1488-1498 | The loop gives the value of eight bits, and -1 for any other length |
| `BitStrings.BitAt` | utils/src/utils.c:1461-1473 | Digit i of n is the one of weight 2^(n-1-i): the first weighs most |
| `BitStrings.DecodeEncode` | utils/src/utils.c:1461-1498 | Bytes to bits and back are the same bytes |
| `BitStrings.EncodeDecode` | utils/src/utils.c:1461-1498 | Whole bytes of bits to bytes and back are the same bits |
| `Paging.WantedIsCeil` | memoria/src/paginacion.c:566-580 | The recursion wants the ceiling of size over page length, for every positive size |
| `Paging.SaveTakesLowest` | memoria/src/paginacion.c:550-591 | The recursion takes exactly the lowest free frames in ascending order, as many as wanted or as there are, with consecutive page ids, and leaves the other free frames |
| `Paging.SaveBits` | memoria/src/paginacion.c:609-620 | After it a frame is marked iff it was or one of the new pages lies on it |
| `Paging.SaveKeepsTaken` | memoria/src/paginacion.c:628-637 | The bytes of frames marked before are unchanged |
| `FreshPages.SaveHoldsData` | memoria/src/paginacion.c:550-637 | With frames enough, the new pages lie on frames of their own and their bytes in order begin with the data, whatever its length |
| `FreshPages.CreatedHolds` | memoria/src/paginacion.c:340-355 | The memory of a process just made is asterisks from its first byte to its last |
| `FreshPages.EnlargedHolds` | memoria/src/paginacion.c:59-89 | An enlargement puts its pages after the old ones; as far as the size grew they hold asterisks |
| `Resizing.FramesDistinct` | memoria/src/paginacion.c:593-607 | Under the invariant no two pages of any processes share a frame, and every page's frame is marked |
| `Resizing.FramesConserved` | memoria/src/paginacion.c:526-537 | Free frames and the lengths of all page tables add up to the number of frames |
| `ResizeProof.ResizeKeeps` | memoria/src/paginacion.c:26-97 | Resize in every branch keeps the invariant: frames marked exactly as pages lie on them, one table for a pid, pages numbered from 0, next id the table's length, global id back at 0 |
| `ResizeProof.RunKeeps` | memoria/src/paginacion.c:26-97 | The same over all runs of resizes of any processes |
| `ResizeProof.ResizeExisting` | memoria/src/paginacion.c:42-96 | A table's resize fails iff the free frames are fewer than the added pages, and then changes nothing; otherwise ceil(size/P) pages when growing, floor(size/P)+1 when shrinking |
| `ResizeProof.ResizeExactIff` | memoria/src/paginacion.c:52-58 | Exactly when a successful resize leaves the ceiling: it grew, or the size is no multiple of the page length |
| `ResizeProof.ResizeCapacity` | memoria/src/paginacion.c:42-96 | After a successful resize size <= capacity <= size + P |
| `ResizeProof.ResizeFresh` | memoria/src/paginacion.c:33-41 | Creation always reports 1; the table exists afterwards iff the frames sufficed, and otherwise nothing changed |
| `ResizeProof.ResizeKeepsPages` | memoria/src/paginacion.c:26-97 | Every page that survives keeps its frame and its bytes, in every process |
| `MemoryModule.MemoryServer.SaveInPage` | memoria/src/paginacion.c:550-591 | The recursive method on bitmap, memory and id counters computes the specified allocation |
| `MemoryModule.MemoryServer.FreePagesFromTheEnd` | memoria/src/paginacion.c:931-944 | The loop drops one page fewer than asked for and frees their frames |
| `MemoryModule.MemoryServer.PlayingGodCreation` | memoria/src/paginacion.c:332-384 | Creates the table iff the frames suffice, and puts the global id back |
| `MemoryModule.MemoryServer.ResizeProcess` | memoria/src/paginacion.c:26-97 | Memory and return value are the specified resize |
| `MemoryModule.MemoryServer.GetFrame` | memoria/src/paginacion.c:791-819 | While resize's invariant holds: the frame of the page whose id is the number in the table whose pid is the process, and -1 if and only if there is no such page |
| `MemoryModule.MemoryServer.NextPageOf` | memoria/src/paginacion.c:1000-1017 | The loop finds the page after the first one on the frame, or -1 |
| `MemoryModule.MemoryServer.ReadFrom` | memoria/src/paginacion.c:1024-1114 | The chained read computes the specified outcome, or the fault |
| `MemoryModule.MemoryServer.OccupyPhysicalAddress` | memoria/src/paginacion.c:639-688 | The chained write computes the specified memory, or the fault |
| `FlatMemory.NextFrameIsNext` | memoria/src/paginacion.c:1000-1017 | Because frames are distinct, looking the next page up by frame finds the next page |
| `FlatMemory.ReadIsFlat` | memoria/src/paginacion.c:1024-1114 | For every offset and length: the read returns exactly the slice of the flat bytes if it starts a page or reaches its end and stays inside the process, and is a fault in every other case |
| `FlatWrites.WriteIsFlat` | memoria/src/paginacion.c:639-688 | A write inside a page or from the start of one changes exactly that slice of the flat bytes, and no frame of anybody else |
| `FlatWrites.WriteThenRead` | memoria/src/paginacion.c:639-688 | A page-aligned write of any length is read back |
| `FlatWritesExact.WriteFlatIff` | memoria/src/paginacion.c:644-687 | Exactly when every write of n bytes at an offset acts on the flat bytes: page start, inside the page, or one page length with the next page on the next frame |
| `FlatWritesExact.WriteAstray` | memoria/src/paginacion.c:644-687 | A write from the middle of a page that does not fit it: exactly when it is a fault, and otherwise a page's length goes to the bytes in a row from its address on, whosever they are, and the rest to the next pages |
| `ProcessMemory.WriteIsolated` | memoria/src/paginacion.c:639-688 | Such a write of one process leaves the flat bytes of every other |
| `ProcessMemory.GoodMapped` | memoria/src/paginacion.c:26-97 | The invariant of resize gives every process pages on distinct frames inside memory |
| `Mmu.Unit.HitOrMiss` | cpu/src/MMU.c:58-94 | The first row with the pid and page gives its frame and alone is stamped; with no such row, or no TLB, the answer is -1 and nothing changes |
| `Mmu.Unit.FindMinimum` | cpu/src/MMU.c:174-189 | The scan with a 32-bit minimum finds the specified row |
| `Mmu.Unit.InsertScheduledTLBRow` | cpu/src/MMU.c:121-172 | The in-place shift of FIFO drops the oldest row, keeps the order of the others and puts the new one last; LRU takes out the scanned row; with another algorithm nothing changes |
| `Mmu.Unit.LogicalToPhysicalAddress` | cpu/src/MMU.c:3-27 | Translation through the TLB computes the specified rows and address |
| `TlbModel.FetchIsPageTable` | cpu/src/MMU.c:15-20 | A coherent TLB, or none, under any algorithm and clock gives the frame of the page table and stays coherent |
| `TlbModel.UniqueKeysIff` | cpu/src/MMU.c:29-54 | Exactly when a translation leaves no page with two rows: no TLB, no row for the page, a row with a frame, or a full TLB in which the row without a frame is the one that goes, or none comes |
| `ProcessMemory.RunUnique` | cpu/src/MMU.c:3-54 | Over all runs of translations of pages with a frame and of any resizes, whatever they cut off: no page has two rows, every row has a frame, no more rows than the capacity |
| `TlbModel.UnmappedPageTwice` | cpu/src/MMU.c:15-20 | A page without a frame asked for twice has two rows |
| `TlbModel.ChangeCoherentIff` | cpu/src/operations.c:100-118 | When the page map changes and the TLB is not told, it stays coherent iff every row with a frame is for a page that stayed |
| `TlbModel.LeastRowIff` | cpu/src/MMU.c:174-189 | Exactly when the scan finds a least recently used row, for every clock value |
| `TlbModel.LeastRowFails` | cpu/src/MMU.c:177-177 | Two rows past 2^31 microseconds for which it does not |
| `TlbModel.LeastRowFirst` | cpu/src/MMU.c:174-189 | Of several rows used at the same time the scan takes the first, while times are exact |
| `TlbModel.MissedRow` | cpu/src/MMU.c:42-54 | A missed page gets the last row, with memory's answer and the time of the insertion |
| `TlbModel.PhysicalIsOnFrame` | cpu/src/MMU.c:20-26 | The address lies on the frame, as far in as the logical address into its page; without a frame it lies at the very end of the 32-bit addresses |
| `FifoOrder.FifoHoldsLastMissed` | cpu/src/MMU.c:121-140 | For every reference string and clock FIFO holds exactly the last C pages missed, the oldest first, where a page is missed iff it is not among the last C missed |
| `FifoOrder.EvictedThenPresent` | cpu/src/MMU.c:121-140 | The pages thrown out, and after them the pages present, are the pages missed, in order |
| `FifoOrder.HitKeepsKeys` | cpu/src/MMU.c:58-94 | A hit changes neither which pages are there nor their order, under any algorithm |
| `FifoOrder.UnknownHoldsFirst` | cpu/src/MMU.c:121-172 | With an algorithm the MMU does not know, the first C pages used stay for ever |
| `LruStack.LruHoldsMostRecent` | cpu/src/MMU.c:154-189 | For every reference string with a strictly increasing 32-bit clock the TLB holds exactly the C most recently used pages |
| `LruStack.Inclusion` | cpu/src/MMU.c:154-189 | A larger TLB holds every page a smaller one holds |
| `LruStack.HitsGrow` | cpu/src/MMU.c:58-94 | Hits never decrease as the TLB grows |
| `ProcessMemory.TranslationIsPageTable` | cpu/src/MMU.c:3-54 | After any run of translations, creations, enlargements and reductions that cut off no page with a row, the next translation gives the page table's frame and the offset |
| `ProcessMemory.ResizeCoherentIff` | cpu/src/operations.c:100-118 | A resize leaves the TLB coherent iff none of its rows is for a page it cuts off |
| `ProcessMemory.GrowthIsHarmless` | memoria/src/paginacion.c:59-89 | Creations and enlargements cut off no page |
| `ProcessMemory.StaleRow` | cpu/src/operations.c:100-118 | After a reduction that cuts off a page with a row, translation gives a frame the page has lost |
| `ProcessMemory.StaleFromStart` | cpu/src/operations.c:100-118 | A run from the start to that: two pages made, the second translated, the process cut down, and the page still translated |
| `ProcessMemory.AddressesDistinct` | cpu/src/MMU.c:26-26 | Two mapped (pid, logical address) pairs have the same physical address iff they are the same |
| `TranslatedAccess.TranslatedByte` | cpu/src/MMU.c:20-26 | The byte of main memory at the physical address of a logical one is that byte of the process's flat memory |
| `TranslatedAccess.TranslatedRead` | memoria/src/paginacion.c:1024-1114 | From the CPU's address to the answer: a read there is the slice of the flat memory from the logical address on, or a fault in exactly the other cases |
| `TranslatedAccess.TranslatedWrite` | memoria/src/paginacion.c:639-688 | A write there, in the cases it is right for, changes exactly that slice of the flat memory |
| `KernelInvariant.StepKeepsIff` | kernel/src/main.c:362-613 | For every state of the invariant and every step a thread can take, the next state satisfies the invariant if and only if the step is sound: not a kill in NEW, READY or AUX, nor of a blocked process an interface works for or a thread is about to wake; not a search that finds only waiters other threads are about to wake; not a return for an unknown reason |
| `KernelInvariant.AdmitCounts` | kernel/src/main.c:362-392 | Admission keeps every counter equal to its queue and never peeks an empty NEW |
| `KernelInvariant.DispatchCounts` | kernel/src/main.c:421-526 | Dispatch under FIFO, RR and VRR keeps the counters and never pops an empty queue, the unlocked test of AUX included |
| `KernelInvariant.ReplyCounts` | kernel/src/main.c:848-906 | A returned process, for each known reason, keeps the counters |
| `KernelInvariant.WakeCounts` | kernel/src/main.c:579-613 | Under the invariant, unblocking by pid or by context and deleting keep the counters, and the search of desblockPcb finds a process |
| `KernelInvariant.WakeIos` | kernel/src/main.c:977-986 | A search and a later waking, each its own step, keep one waiter for every thread that has seen one, and never take a process from an interface |
| `KernelInvariant.ChangeSlots` | kernel/src/main.c:1362-1380 | Slots and admitted processes add up to the degree, or to as much of a new degree as has been posted or waited for |
| `KernelInvariant.CreatePlaces` | kernel/src/main.c:671-718 | A new pid comes from the released ones or is fresh, and is in one place |
| `KernelRuns.KernelSafe` | kernel/src/main.c:362-613 | Over all interleavings of sound steps from the start: no pop or search comes back empty, each pid handed out in exactly one place (queue, list, CPU, a thread's hands or free), at most one process running, every semaphore agreeing with its queue, slots with the degree |
| `KernelRuns.DoubleWakeCrashes` | kernel/src/main.c:1596-1604 | Two searches for the same single waiter: the second waking finds nobody |
| `KernelResources.StepAgrees` | kernel/src/main.c:907-991 | Scheduler and resources as one kernel: a step of both keeps one blocked list and one set of claims, and a waking crashes in both or in neither |
| `KernelResources.SearchSoundIff` | kernel/src/main.c:973-988 | A search of SIGNAL or a release is sound for the scheduler if and only if it claims a waiter no other thread has claimed |
| `KernelResources.KernelSafe` | kernel/src/main.c:362-991 | Over all interleavings of the whole kernel from the start with each step right where it is taken: nothing crashes, the scheduler's invariant holds, and no resource is given out more often than configured |
| `KernelQueues.QueueLaw` | kernel/src/main.c:362-613 | For NEW, READY and AUX, in every run without kills there, and for the released pids in every run: what was taken out and what is left is what was there and what came, in order |
| `KernelQueues.ReadyAfterAux` | kernel/src/main.c:471-480 | Under VRR the dispatcher goes to READY only after it saw AUX empty, with no other step of its own in between |
| `KernelQueues.ServedInOrder` | kernel/src/main.c:517-526 | The process at place i of a queue is taken from it after exactly i others, whatever arrives, unblocks or returns meanwhile, and until then stands that much nearer |
| `KernelQueues.BoundedWaiting` | kernel/src/main.c:421-466 | Under FIFO and RR the process at place i of READY is sent to the CPU after exactly i others |
| `KernelRuns.StillMeans` | kernel/src/main.c:362-526 | When no thread can move and the CPU is idle, READY and AUX are empty, and NEW is empty or as many processes are blocked as the degree allows: no slot or signal is lost |
| `WaitOrder.WaitLaw` | kernel/src/main.c:579-584 | For each resource, over all sound runs that kill none of its waiters: who was woken and who still waits are those who waited and those who were blocked for it, in the same order |
| `WaitOrder.WokenInOrder` | kernel/src/main.c:579-584 | The process at place i of the line for a resource is woken after exactly i others |
| `KernelEnds.EndedStaysOut` | kernel/src/main.c:263-279 | A process whose IO failed, that was killed in NEW, READY, AUX or blocked, or that came back to exit, is from then on, over all runs with kills of every kind, with those being deleted or its pid with those released, and in no queue, no list, no thread's hands and not on the CPU until the pid is handed out again |
| `KernelEnds.EndsFrom` | kernel/src/main.c:1435-1488 | Before that it was in the queue or list the step takes it from |
| `KernelEnds.ReturnsNotLost` | kernel/src/main.c:579-613 | A process whose IO is done, or that was first in line for a resource, is put into READY or AUX by some later step, or is still with the thread that woke it |
| `KernelEnds.WholeFromStart` | kernel/src/main.c:362-613 | From the start, over all runs, whatever is killed: until something crashes every pid handed out is in exactly one place |
| `KernelRuns.KillNewEffect` | kernel/src/main.c:1443-1452 | After a kill in NEW one slot and one announcement too many remain |
| `KernelRuns.KillReadyCrashes` | kernel/src/main.c:1455-1464 | After a kill of the only ready process the next dispatch pops an empty queue, under each planner |
| `KernelRuns.KillReadyReached` | kernel/src/main.c:362-466 | A sound run from the start to a state in which that kill can happen |
| `KernelRuns.KillIoCrashes` | kernel/src/main.c:1479-1488 | After a kill of a process an interface works for, the interface's answer finds no process |
| `KernelRuns.KillIoReached` | kernel/src/main.c:362-526 | Under every planner a sound run from the start to a state in which that kill can happen |
| `Scheduler.Queues.GetNewPid` | kernel/src/main.c:709-718 | The oldest released pid, or a fresh one when none is free |
| `Scheduler.Queues.CreatePcb` | kernel/src/main.c:671-692 | Its parts are three steps of the machine, and the process is the last of NEW |
| `Scheduler.Queues.Admit` | kernel/src/main.c:362-392 | The move from NEW to READY as steps of the machine; NEW is not empty |
| `Scheduler.Queues.Fifo` | kernel/src/main.c:517-526 | Pops the head of READY, which is not empty |
| `Scheduler.Queues.DesblockPcb` | kernel/src/main.c:579-613 | Takes the process of an interface's pid, or the one that has waited longest for a resource; it leaves the list and becomes the last of AUX (VRR with quantum left) or of READY, as steps of the machine |
| `Scheduler.Queues.ChangeMultiprogramming` | kernel/src/main.c:1362-1380 | The two loops: finishes iff there are enough free slots to take, then slots and degree changed by the same amount; otherwise all slots are taken and the degree is not changed |
| `ResourceSafety.ConservedIff` | kernel/src/main.c:907-966 | Instances and recorded holdings of a resource keep adding up to what was configured, exactly for WAITs of processes with a record and SIGNALs of holders |
| `ResourceSafety.CoveredIff` | kernel/src/main.c:973-988 | Exactly when a step keeps instances, waiters and pending wakings in order: no search claims a waiter another thread has claimed, no waiter is killed while nothing is to spare |
| `ResourceSafety.NeverOverGranted` | kernel/src/main.c:907-991 | In such states the units granted never exceed those configured |
| `ResourceSafety.ResourcesSafe` | kernel/src/main.c:907-991 | The same over all interleavings of WAIT, block, SIGNAL, release, waking, IO and creation from such a state, without a crash |
| `ResourceSafety.SafeFromStart` | kernel/src/main.c:61-66 | The kernel starts in such a state, so careful runs from the start never give out more than configured and never crash |
| `ResourceSafety.PromptFromStart` | kernel/src/main.c:977-986 | Runs from the start in which every search is followed at once by its waking are safe, whatever else they do, short of killing waiters |
| `ResourceSafety.BalancedIff` | kernel/src/main.c:907-991 | Exactly when a step keeps the number of waiters equal to the instances lacking: SIGNAL while at most one is lacking, release while the blocked list shows the waiters |
| `ResourceSafety.SignalHangsIff` | kernel/src/main.c:973-989 | SIGNAL neither wakes nor answers if and only if two or more instances were lacking |
| `ResourceSafety.WaitAnswers` | kernel/src/main.c:907-951 | What each answer to a WAIT means: EMPTY_INSTANCE iff the resource is not configured, and then nothing changes; BLOCK iff it is and no instance was left; CONTINUE otherwise; one instance less |
| `ResourceSafety.SignalAnswers` | kernel/src/main.c:952-991 | To a SIGNAL: EMPTY_INSTANCE iff not configured, and then nothing changes; no answer iff two or more instances were lacking; CONTINUE otherwise; one instance more |
| `ResourceSafety.AnswersOnCpu` | kernel/src/main.c:936-951 | In the transition system a process goes to be blocked exactly when no instance of a configured resource is left, and the CPU stays without an answer exactly when two or more are lacking |
| `ResourceSafety.OnItsRecord` | kernel/src/main.c:918-961 | A WAIT goes on the record of the process that asks, a SIGNAL comes off it, and no other record changes |
| `ResourceSafety.WakeCrashesIff` | kernel/src/main.c:579-584 | A waking crashes iff nobody waits for the resource any more |
| `ResourceSafety.TwoSearches` | kernel/src/main.c:977-986 | A SIGNAL and a release can both see the same waiter |
| `DoubleWaking.CrashFromStart` | kernel/src/main.c:977-986 | A run from the start, without a kill, with the SIGNAL by a holder and the release after a failed IO, in which the second waking crashes |
| `DoubleWaking.OverGrantFromStart` | kernel/src/main.c:1596-1604 | A run from the start that ends with three units in use of two configured: between the two wakings the process that signalled asks twice |
| `ResourceSafety.DoubleWake` | kernel/src/main.c:1596-1604 | From there a run that ends with one unit more in use than configured |
| `ResourceTable.ReleasedNumbers` | kernel/src/main.c:1568-1611 | Releasing a process gives back each recorded unit and wakes one waiter for each while there are any |
| `ResourceTable.ReleasedOrder` | kernel/src/main.c:1596-1604 | Of the line for each resource exactly the first processes are woken, one for each unit the released process had on record |
| `ResourceTable.ReleasedBalanced` | kernel/src/main.c:1568-1611 | Releasing a process that waits for nothing keeps the waiters in balance |
| `ResourceTable.FinishWaiterIff` | kernel/src/main.c:1479-1488 | Finishing a waiting process keeps the granted units within the configured ones iff it had at least as many units on record as processes were waiting |
| `ResourceTable.Table.FindIndexOfString` | utils/src/utils.c:376-383 | The loop finds the first index, or -1 |
| `ResourceTable.Table.RemoverRecurso` | kernel/src/main.c:1531-1538 | The first occurrence goes from the record |
| `ResourceTable.Table.Wait` | kernel/src/main.c:907-951 | Counters and records are the specified WAIT; the answer is EMPTY_INSTANCE exactly for an unknown resource, with nothing changed, and BLOCK exactly when no instance is left |
| `ResourceTable.Table.Signal` | kernel/src/main.c:952-991 | Counters and records are the specified SIGNAL; the process woken is the first in line, and no other line changes; the answer is missing exactly when two or more instances were lacking |
| `ResourceTable.Table.LiberarRecursos` | kernel/src/main.c:1568-1617 | The loop over the record computes the specified release, and of every line the first processes go, one for each unit |
| `Stream.BytesRoundTrip` | utils/src/serialization.c:54-65 | Four bytes to a number and back |
| `Stream.NumberOf` | utils/src/serialization.c:54-65 | The first of the four bytes weighs 1, the last 2^24 |
| `Stream.UntilZeroIff` | utils/src/serialization.c:88-94 | Exactly which string a copied stretch of bytes is |
| `Stream.TextAtWritten` | utils/src/serialization.c:80-94 | A string written at an offset is read there, and reader and writer go on at the same offset |
| `Stream.Buffer.BufferAddString` | utils/src/serialization.c:80-86 | Copies length, text and zero at the offset and nothing else |
| `Stream.Buffer.BufferReadString` | utils/src/serialization.c:88-94 | Reads the string and moves to its end |
| `PcbCodec.RegistersAtIff` | utils/src/serialization.c:96-149 | A register file is read at an offset if and only if its bytes are there |
| `PcbCodec.RoundTrip` | utils/src/utils.c:589-641 | For every pid, quantum, registers, state and zero-free texts the decoded block is the encoded one, and both end at the same offset, whatever follows in the stream |
| `PcbCodec.LayoutIff` | utils/src/utils.c:589-603 | Which field is at which offset: a stream goes on with the message if and only if each number, register, length, text and ending zero is at its place |
| `PcbCodec.EncodePrefixFree` | utils/src/utils.c:589-603 | Different blocks have different messages, none a prefix of another |
| `PcbCodec.MessageFitsIff` | utils/src/pcb.c:51-77 | The message fits the stream iff pointers take at least four bytes |
| `PcbCodec.BufferAddCpuRegister` | utils/src/serialization.c:96-108 | Eleven writes leave the 32 bytes of the registers |
| `PcbCodec.PcbSerialize` | utils/src/utils.c:589-603 | The stream becomes the message at offset 0, never past its end, and the offset its length |
| `PcbCodec.PcbDeserialize` | utils/src/utils.c:613-641 | Reads what the decoding function gives |
| `PcbCodec.SendAndReceive` | utils/src/utils.c:578-587 | A block serialized into a stream of the computed size and deserialized is the same block |
| `IoText.NumberRoundTrip` | utils/src/utils.c:935-955 | Every 32-bit number printed with %u or %d is read back |
| `IoText.NoNumberIsZero` | utils/src/utils.c:935-955 | A word that is no number reads as 0 |
| `IoText.DecimalFirst` | cpu/src/operations.c:615-615 | Only the number 0 begins with a zero |
| `IoText.GetNextWord` | utils/src/utils.c:908-920 | The character loop returns the word and moves past the character that ended it |
| `IoText.NextWordIff` | utils/src/utils.c:908-920 | Exactly which word stands at an offset |
| `IoText.FormatRoundTripIff` | cpu/src/operations.c:615-615 | For the five IO instructions printed from fields: the kernel's parse of the text gives the same fields if and only if the words contain no blank, end of line or zero |
| `IoText.FormatIs` | cpu/src/operations.c:427-640 | The five printed texts word by word: the instruction's name, then its words and numbers in order, one blank between them |
| `IoText.SleepPassedOn` | cpu/src/operations.c:201-217 | IO_GEN_SLEEP: for every instruction the kernel reads the interface and the number of units the program wrote, from words copied as read |
| `IoText.RawPassedOn` | cpu/src/operations.c:427-477 | IO_FS_CREATE and IO_FS_DELETE: from the instruction passed on as written the kernel reads interface and file, whatever follows them |
| `IoText.FormatInjective` | kernel/src/main.c:1195-1204 | Different instructions have different texts |
| `IoText.BlankBreaks` | kernel/src/main.c:1111-1118 | A blank in a file name: another file is named |
| `SplitAccess.DividedIff` | cpu/src/operations.c:1052-1059 | The access is split iff the last of the four bytes is on another page than the first |
| `SplitAccess.SplitShape` | cpu/src/operations.c:918-942 | For pages of at least four bytes both parts are non-empty, the second starts its page and ends on it |
| `SplitAccess.ReconstructedIff` | cpu/src/operations.c:954-974 | The value comes out iff the first reading has its low k bytes and the second the others |
| `SplitAccess.ReconstructedValue` | cpu/src/operations.c:954-974 | For k in 1..3 the low bytes and what is above them give the value again |
| `SplitAccess.DatoReconstruido` | cpu/src/operations.c:954-974 | The two copies into four bytes give that value |
| `SplitAccess.SplitReadsFlat` | cpu/src/operations.c:918-947 | The two readings are defined and give the four bytes of the process's flat memory |
| `SplitAccess.WholeReadIff` | cpu/src/operations.c:902-910 | The reading in one piece is defined iff the register starts or ends its page |
| `SplitAccess.CadenaANumero` | utils/src/utils.c:1511-1520 | The loop makes the first byte the most significant |
| `SplitAccess.SplitValueIff` | cpu/src/operations.c:894-952 | Exactly when the register read in two pieces is the one read in one, for all bytes: the text memory reads ends at the cut, or repeats both ways across it, or ended before |

## Left out

- Sockets, handshakes, logs, waiting times, configuration files, memory mapping, the console's command line and the menus of the interfaces: page length, block size, counts, capacities, the clock and what memory answers to the MMU are parameters.
- Allocation and release of C memory, and the sizes of string buffers: words longer than a buffer are not cut or refused, and texts of any length are sent.
- DialFs: the list of open files, which decides nothing about the disk; the order of equal first blocks in a listing, which cannot occur once every file has blocks.
- DialFs.Device.Compaction: requires every file to have a block, since the code moves a file without one to a block number it reads as unsigned.
- DialFs.Device.NextBlocksAvailable: blocks past the end of the bitmap count as taken; the original tests bits it does not own.
- DialFs.Device.CanRelocate: only for files without a block, the only ones the code asks it for.
- DialFs.Device: the bit array ends at least one byte after the last block and has fewer than 2^31 bits. The mapped file does so when block size times count is no multiple of the machine's memory page, as for 16 x 32 in entradasalida/DIALFS.config; for 64 x 1024, in the other interface configurations shipped, it is a multiple, and the read of a last file that fills its blocks goes past the mapping.
- DialFs.Device.FsRead: a position past the bit array is excluded, since the original reads memory that is not its own.
- DiskRuns.RunKeeps: sizes stay below ten digits; a truncate through compaction or a compaction is a step only when every file has a block.
- DiskContents.RunRefines: of files with zero bytes the map says only the size after a compaction; which of them keep their bytes depends on what lies where they go (CompactionExact.CompactionKeepsBytesIff).
- DiskModel and Paging: any number of blocks and frames. The code's bitmaps have a byte for eight blocks or frames (entradasalida/src/utils_io.c:263, memoria/src/paginacion.c:20): of blocks it uses the configured number rounded down to a multiple of 8, and with a number of frames that is no multiple of 8 its searches test bits after the bitmap.
- MemoryModule.MemoryServer.SaveInPage: the length of the fill buffer is the one it was allocated with; the original measures an unterminated buffer.
- MemoryModule.MemoryServer.ResizeProcess: a size of zero for a process without a table is excluded, since the original takes the first page of an empty list.
- MemoryModule.MemoryServer.ReadFrom: a crash of the original is the outcome Fault; the ceiling in floating point is taken as exact.
- MemoryModule.MemoryServer: a page table's pages are a sequence in order, not a linked list, and the last number of bytes free in a page is kept but not used.
- Mmu.Unit: the page number is not narrowed to a signed 32-bit number.
- LruStack.LruHoldsMostRecent: pages with a frame and a clock below 2^31; what happens beyond is TlbModel.LeastRowIff.
- KernelModel: the gate that pauses the planner, the quantum counted and left over (any process woken under VRR may go to either queue), and interrupts, which only choose when and why the CPU gives a process back.
- KernelModel: the list of released pids, the resource counters and the records are used without a lock; each use is one step here.
- KernelInvariant.StepKeepsIff: the searches of a kill from the console are modelled by the one that succeeds; those that find nothing change nothing.
- KernelQueues.BoundedWaiting: says nothing under VRR, where processes in AUX go first; KernelQueues.ServedInOrder and KernelQueues.ReadyAfterAux hold there.
- IoText.FormatRoundTripIff: a text with fewer words than its instruction needs is no request; the original reads on past the end of the string.
- ResourceModel: the record of a process that exits stays, as in the code, and counts as recorded; a release may take place for any process with something on record, which includes the processes whose IO failed.
- ResourceTable.Table.LiberarRecursos: the list library visits each element once although the visit removes it, which holds for implementations that fetch the next element first; the library is not part of this model.
- Scheduler.Queues: the operations as one thread carries them out alone; what other threads do in between is in KernelModel.
- PcbCodec.PcbDeserialize: only for streams that hold a whole message; the original does not check.
- SplitAccess.CadenaANumero: up to four bytes; a longer text shifts by 32 bits or more, which C leaves open.
- SplitAccess: writing a register over two pages, of which memory keeps one character of each part.
- The other messages between the programs (IO parameters, process to memory), which repeat the field-by-field pattern of the process control block.
- Arithmetic instructions of the CPU, script reading, splitting of command lines and the printing of states.
