# XASMOS verification

A Dafny model of the parts of XASMOS where mistakes are costly, with proofs that
they keep their promises:

- **EXFS**, the copy-on-write file system: block map with its cache, extent pool,
  inode table, superblock, namespace, byte-range I/O, commit, format and mount.
  The device keeps a record of every content the disk passed through, so "a power
  cut at any moment" is an element of that record. Any access may fail; a device
  declared reliable serves every access in range, and for it the results are total.
- **The xeret kernel's memory**: frame bitmap, token ledger, page tables, address
  spaces, system calls with quotas, and the reaping of a process. Locks split each
  call into sections; other CPUs run sections of their own in between.
- **Executable images**: the `.exb` validator, the packer, their checksum, and the
  loader that turns an image into mappings or takes back what it made.
- **XQUEUE**, the single-producer single-consumer command ring.

Verify everything with `dafny verify dfyconfig.toml`.

## How the model is laid out

| files | what they hold |
|---|---|
| `BlockDevice`, `GroupMap`, `Extents`, `ExtentPool`, `Superblock`, `InodeTable`, `Namespace` | the layers of EXFS, each against its own abstract value: one flat bitmap, block sequences, lists per file, decoded records, a tree of names |
| `Image` | what a disk means: `Recover` reads the committed state, `Good` says a state is intact, `Protected` names its blocks |
| `Transfer`, `ContentIO`, `CommitSteps`, `MountSteps`, `VolumeState` | the steps of operations, and lemmas on values that the operations chain together |
| `Volume`, `VolumeRuns` | the operations on a mounted volume, whole runs of them, and power cuts |
| `PhysMem`, `TokenLedger`, `FrameMemory`, `FrameRuns` | frames and tokens, one CPU's calls under interference, and all interleavings of sections |
| `PageTables`, `Paging`, `Mappings`, `AddressSpaces` | the four-level tree and its flat meaning, mapping records, address spaces |
| `Syscalls`, `SystemRuns` | system calls, quotas, reaping, whole runs |
| `Crc`, `Exb`, `ExbPack`, `LoadState`, `LoadRoom`, `LoadTables`, `Loader`, `LoadLeftover` | checksum, validator, packer, loader, when it cannot fail and what a failure leaves |
| `XQueue` | the ring as a small-step machine |
| `Bytes`, `Intervals` | fields, bitmaps, runs of numbers |

Main statements, from the top:

1. `VolumeRuns.Run`, `VolumeRuns.CommitSurvives` and `VolumeRuns.PowerCut`: any
   sequence of operations, cut anywhere, mounts as exactly one committed moment of
   the run, as the newer one from the instant the superblock lands, and never as one
   before a commit that had answered OK.
2. `AddressSpaces.TranslationIsRecords`, `AddressSpaces.Isolated` and
   `SystemRuns.Run`: in every state the kernel reaches, on any number of CPUs, what
   the processor translates is the union of the live records, inside the owner's
   tokens and their rights, and different owners share no frame.
3. `FrameRuns.FramesConserved` and `FrameRuns.StaleInRuns`: in every interleaving each
   frame has one holder, and a released token stays dead until its slot's generation
   comes round; `FrameRuns.Interleave` ties the interleavings to the code of bitmap
   and ledger.
4. `Loader.Load`: all of an image or none of it, holding the image's bytes, using
   exactly the quota that was checked; and all of it whenever there is room.
5. `Syscalls.System.Reap`: ends, returns what the process held, leaves nothing of it
   and everything of everyone else.
6. `ExbPack.PackedAccepted` and `ExbPack.ParseInvertsPack`: packing and parsing are
   inverse, and the format's limits are exact.
7. `GroupMap` and `ExtentPool`: the cached, double-slotted map is one flat bitmap;
   in-place compaction keeps every list.

## Where the code and its description differ

- `source/kerncall/include/xload.h` says that after a failed load no frame is held.
  Page tables built for the space on the way stay in it until it is destroyed.
  `Loader.Load` says that exactly these frames stay in use, and that refused
  arguments, images and quotas add none; `LoadTables.TablesStay` says for every other
  outcome exactly when none stays. For a load with room that is known before the call:
  none stays if and only if the tables were there on the way to the parts before the
  first whose place is taken, and to that one's pages before the taken one
  (`LoadTables.TablesForeseen`, `LoadLeftover.TablesStayBehind`).
  `LoadLeftover.TakenStack` builds a state in which some stay.
- The validator leaves the heap and token requests of the caller's record as they
  were when an image does not state them, so the loader then passes on whatever its
  local record held; `Exb.UnsetRequests` gives the exact condition and
  `ExbPack.StaleRequests` such an image.
- A dirty cached group whose eviction fails is dropped although its changes are on
  no disk, and the volume is not marked broken. `GroupMap.GMap.Load` gives the exact
  condition and `GroupMap.ChangeLost` such a state; this I/O error (`failed`) ends
  what is claimed about a running volume, though never what is claimed about the disk.
- A commit at generation 2^64 - 1 wraps to 0 and is then older than the state it
  replaces (`Image.CommitIsNewest`), and a format over an old volume does not erase
  the other superblock, which wins if its generation is 1 or more
  (`Image.FormatIsNewest`).
- `exfs_write` rounds its length up in 64 bits; `VolumeState.BlocksForExact` gives
  the exact range for which that is the number of blocks.
- `gmap_take` answers with an empty run when the hint lies past the last valid bit
  of its group; the contract of `GroupMap.GMap.Take` says exactly when.

## Model

| member | source | states |
|---|---|---|
| `VolumeRuns.Run` | source/core/exfs/exfs.c:356-867 | any sequence of create, mkdir, delete, write, write_at and commit: each answer is one the visible files call for; an operation answered OK has exactly its effect on them and any other has none; epochs are opened by commits only, in order, each within its operation, and after a commit answered OK the newest epoch shows the files as they are; every disk content on the way stays recoverable; all operations are carried out unless the map had an I/O error or a commit broke the volume; on a reliable device neither happens and the volume stays whole |
| `VolumeRuns.CommitSurvives` | source/core/exfs/exfs.c:356-437 | a commit of the run answered OK is never lost: every disk content from its end on recovers to the files right after that commit or right after a later one of the run |
| `VolumeRuns.Step` | source/core/exfs/exfs.c:542-830 | one operation takes its whole effect if it answers OK and changes nothing otherwise, and only a commit opens an epoch; on a reliable device no operation ends with an I/O error or breaks the volume |
| `VolumeRuns.EveryCutRecovers` | source/core/exfs/exfs.c:356-437 | every disk content since the first epoch belongs to exactly one epoch and recovers to that epoch's state: the old one before the superblock lands, the new one from then on |
| `VolumeRuns.PowerCut` | source/core/exfs/exfs.c:468-521 | mounting the disk as a power cut at any moment left it shows exactly the names, kinds and bytes of the epoch the cut fell in, and finds no volume before the first commit; on a reliable device the mount reads without error |
| `Volume.Vol.Create` | source/core/exfs/exfs.c:542-549 | creates an empty file or answers exactly the status the names call for; every invariant and recoverability kept |
| `Volume.Vol.Mkdir` | source/core/exfs/exfs.c:551-558 | the same for directories |
| `Volume.Vol.NewName` | source/core/exfs/exfs.c:314-333 | the status is an exact function of the visible names: bad name, missing parent, existing name, full table |
| `Volume.Vol.MakeNode` | source/core/exfs/exfs.c:314-333 | takes the first unused record, keeping the tree, the space accounting and the pool |
| `Volume.Vol.Delete` | source/core/exfs/exfs.c:560-572 | removes exactly the named entry; not found, not empty and out of memory (the deferred list has no place for the file's extents and chain) are reported if and only if so; a failure changes nothing |
| `Volume.Vol.Unlink` | source/core/exfs/exfs.c:248-259 | the blocks of a removed file and its chain are deferred, not freed; out of memory if and only if the deferred list cannot hold them |
| `Volume.Vol.Lookup` | source/core/exfs/exfs.c:272-280 | finds the record a write is for: none if and only if the name is not visible, a directory if and only if the view shows one |
| `Volume.Vol.Write` | source/core/exfs/exfs.c:688-736 | replaces the file's bytes exactly, or changes no file; not found and is-a-directory exactly; out of space only when fewer blocks are free than the file needs; out of memory only when the deferred list is full, the free space is in more pieces than a list has extents, or the pool has no slice for the new list; touches no block of the committed state; keeps every invariant and recoverability; on a reliable device there is no I/O error |
| `Volume.Vol.WriteFile` | source/core/exfs/exfs.c:688-736 | the write from taking blocks on: new blocks only, everything released again on failure, with the same conditions for out of space and out of memory |
| `Volume.Vol.WriteTaken` | source/core/exfs/exfs.c:688-736 | with the blocks taken: writes go only to blocks outside the committed state, every failure path gives them back, and out of memory if and only if the deferred list is full or the pool has no slice for the new list |
| `Volume.Vol.Reserve` | source/core/exfs/exfs.c:162-171 | a slice is to be had if and only if its rounded capacity and all slices in use fit the pool; every list survives the compaction |
| `Volume.Vol.PutWhole` | source/core/exfs/exfs.c:700-720 | the taken runs hold the buffer, nothing else is written, and on a reliable device it cannot fail |
| `Volume.Vol.TakeBlocks` | source/core/exfs/exfs.c:85-99 | takes exactly as many free blocks as asked, or none; out of space only when they are lacking, out of memory only when the free space is in too many pieces; the runs are no more than these pieces and one |
| `Volume.Vol.GiveBack` | source/core/exfs/exfs.c:95-99 | a failed write's blocks return to the map and nothing visible changes |
| `Volume.Vol.Install` | source/core/exfs/exfs.c:688-736 | the change in memory that ends a write: new list in the pool, old blocks deferred, the view changed in one entry |
| `Volume.Vol.WriteAt` | source/core/exfs/exfs.c:741-830 | splices the bytes into the file, zeros in a gap past the end, other bytes and files as before, and leaves the file's list merged; a failure changes nothing; not found, is-a-directory and a range past 2^64 exactly; out of space only when the blocks from the first one touched to the last are not free; out of memory only when the deferred list is full, the free space is in too many pieces, or some free blocks would leave the spliced file in more runs than a list or the pool has room for; touches no block of the committed state |
| `Volume.Vol.WriteAtFile` | source/core/exfs/exfs.c:741-830 | the same once the file is found |
| `Volume.Vol.WriteAtBlocks` | source/core/exfs/exfs.c:741-830 | the same with the touched blocks counted: new blocks for exactly the touched range, and no more are asked of the free space |
| `Volume.Vol.WriteAtTaken` | source/core/exfs/exfs.c:741-830 | copy on write over the touched range: the stored list is merged and its blocks are the old ones outside the range and the new ones in it; out of memory if and only if these are in more runs than a list has extents or the pool has no slice for them |
| `Volume.LacksWith` | source/core/exfs/exfs.c:741-830 | a splice that lacks room with the blocks it took is one that free blocks in as few runs as the free space has pieces can make lack room |
| `Volume.Vol.InstallRange` | source/core/exfs/exfs.c:741-830 | only the replaced blocks of the range are deferred, so the space accounting stays exact |
| `Volume.Vol.ReadAt` | source/core/exfs/exfs.c:833-867 | returns exactly the bytes [off, off + cap) of the file as last written, cut at its end; not found and is-a-directory exactly; no error on a reliable device |
| `Volume.Vol.Commit` | source/core/exfs/exfs.c:356-437 | how it ends is determined: OK with nothing to do when clean; out of space, changing nothing, if and only if the chain blocks it needs are not free; otherwise OK unless an error breaks the volume, which on a reliable device never happens; on success the committed state is the current one and nothing is deferred, on failure the last committed state stands or at most the new state landed |
| `Volume.Vol.ChainDemand` | source/core/exfs/exfs.c:361-370 | the chain blocks the commit will need, counted before anything changes |
| `Volume.Vol.ChainOne` | source/core/exfs/exfs.c:371-400 | a changed file gets fresh chain blocks holding its extents past the inline ones |
| `Volume.Vol.PutChain` | source/core/exfs/exfs.c:386-400 | a file's chain pages go to blocks outside the committed state, after which its record matches the disk |
| `Volume.Vol.Chains` | source/core/exfs/exfs.c:374-400 | after the pass every file's chain on disk matches its list |
| `Volume.Vol.Settle` | source/core/exfs/exfs.c:402-406 | deferred blocks become free in the map and dirty groups reach their pending slots; what is in use is exactly what files and reserved areas hold |
| `Volume.Vol.Table` | source/core/exfs/exfs.c:408-416 | the inode table goes to the other area and touches nothing committed |
| `Volume.Vol.WriteSuper` | source/core/exfs/exfs.c:418-430 | one block write separates the old state from the new: the disk recovers to the new state if and only if it landed |
| `Volume.Vol.Publish` | source/core/exfs/exfs.c:408-436 | table, superblock, then the map's pending slots become the committed ones |
| `Volume.Vol.Landed` | source/core/exfs/exfs.c:431-436 | after the superblock landed the state in memory is the committed one and every invariant holds for it |
| `Volume.Vol.CommitDirty` | source/core/exfs/exfs.c:361-437 | a dirty volume's commit: every early exit leaves the last committed state recoverable |
| `Volume.Vol.Format` | source/core/exfs/exfs.c:441-464 | on a disk without a volume: four system directories, committed; recoverable throughout; on a reliable device it succeeds |
| `Volume.Vol.FormatMap` | source/core/exfs/exfs.c:441-444 | the fresh map uses exactly the reserved blocks |
| `Volume.Vol.FreshMemory` | source/core/exfs/exfs.c:446-458 | the empty volume in memory satisfies every invariant |
| `Volume.Vol.Mount` | source/core/exfs/exfs.c:468-521 | succeeds exactly when the disk holds a recoverable state, and adopts that state; out of memory if and only if the newest state's files are too long for the pool at the first record that cannot be taken, no file system for every other refusal; mounted if and only if it succeeded; for a state a commit left, memory shows its files and all invariants hold; on a reliable device no read fails |
| `Volume.Vol.LoadFiles` | source/core/exfs/exfs.c:490-512 | reads all inode records into files and the pool, as the recovery function does; out of memory if and only if it stops at a file whose list the pool cannot hold |
| `Volume.Vol.LoadList` | source/core/exfs/exfs.c:499-503 | one file's extents enter the pool, failing exactly when the pool cannot hold them |
| `Volume.Vol.Adopt` | source/core/exfs/exfs.c:468-521 | generation, table area and map tables come from the newest valid superblock |
| `Volume.Vol.Unmount` | source/core/exfs/exfs.c:523-529 | no file system if and only if none was mounted, broken if and only if it was broken; otherwise it commits and ends as a commit does, unmounting if and only if that answered OK; then the committed state shows the files as they were |
| `VolumeState.TransactionWrites` | source/core/exfs/exfs.c:356-437 | device writes inside a transaction keep the files, the invariants and every earlier recovery point |
| `VolumeState.CommittedUntouched` | source/core/exfs/exfs.c:85-99 | no block a transaction may write belongs to the committed superblock, table area, map slots, extents or chains |
| `VolumeState.TransactionSpares` | source/core/exfs/exfs.c:688-830 | no disk content during a transaction differs from the start in a block of the committed state |
| `VolumeState.CrashSafeExtends` | source/core/exfs/exfs.c:356-437 | more writes outside the committed state keep every recovery point |
| `VolumeState.CrashSafeCommits` | source/core/exfs/exfs.c:418-430 | the superblock write starts a new epoch and no earlier content changes |
| `VolumeState.SoundReplace` | source/core/exfs/exfs.c:688-830 | changing one file's record keeps the tree, the stored bytes and the space accounting of all the others |
| `VolumeState.SpaceReplace` | source/core/exfs/exfs.c:238-268 | blocks move between a file, the deferred list and the free space without loss or duplication |
| `VolumeState.RewriteOk` | source/core/exfs/exfs.c:688-736 | the record that ends a write accounts for every block: new ones owned, old ones deferred |
| `VolumeState.RangeOk` | source/core/exfs/exfs.c:741-830 | the record that ends a write_at stores the spliced bytes and accounts for every block |
| `VolumeState.NewNodeOk` | source/core/exfs/exfs.c:314-333 | a new record keeps names unique, parents present and the accounting |
| `VolumeState.DeletedOk` | source/core/exfs/exfs.c:560-572 | removing a childless entry keeps the tree and defers its blocks |
| `VolumeState.BlocksForExact` | source/core/exfs/exfs.c:697-700 | the 64-bit rounding gives ceil(len / 4096) if and only if len + 4095 does not wrap |
| `CommitSteps.CommitPoint` | source/core/exfs/exfs.c:418-436 | with everything else in place, the superblock page makes the disk recover to the new state, and without it to the old one |
| `CommitSteps.TableUntouched` | source/core/exfs/exfs.c:408-416 | the area of the next generation's table is outside the committed state |
| `CommitSteps.DeferredRest` | source/core/exfs/exfs.c:262-268 | after the deferred blocks are released, files and reserved areas are all that is in use |
| `CommitSteps.TakeChain` | source/core/exfs/exfs.c:374-386 | chain blocks come one by one from free blocks and are distinct |
| `CommitSteps.WriteChain` | source/core/exfs/exfs.c:388-400 | the chain pages on disk hold the list's extents and link to each other |
| `CommitSteps.WriteTable` | source/core/exfs/exfs.c:408-416 | the table area holds every inode record |
| `CommitSteps.NodesFit` | source/core/exfs/exfs.c:182-234 | every record of a sound volume passes the checks a later mount makes |
| `MountSteps.ReadSuper` | source/core/exfs/exfs.c:473-482 | picks the valid superblock of the higher generation |
| `MountSteps.DecodeRecord` | source/core/exfs/exfs.c:198-234 | decodes one inode record following its chain; ends on any disk content, cyclic chains included |
| `MountSteps.CheckNode` | source/core/exfs/exfs.c:504-511 | every extent of a mounted file is non-empty and inside the volume, with the 64-bit sum as computed |
| `MountSteps.Mounted` | source/core/exfs/exfs.c:468-521 | a recovered committed state satisfies all invariants of a running volume |
| `Image.CommitRecovers` | source/core/exfs/exfs.c:356-437 | a disk holding a written commit recovers to exactly that state |
| `Image.CommitIsNewest` | source/core/exfs/exfs.c:408-430 | a commit's superblock becomes the newest if and only if its 64-bit generation did not wrap; if it did, the old one stays the newest |
| `Image.FormatIsNewest` | source/core/exfs/exfs.c:441-482 | a format's superblock becomes the newest if and only if the other place holds no valid superblock of generation 1 or more |
| `Image.NodesReadBack` | source/core/exfs/exfs.c:182-234 | the inode table read back gives every record written |
| `Image.RecoverFrame` | source/core/exfs/exfs.c:468-521 | recovery depends on the protected blocks only |
| `Image.GoodFrame` | source/core/exfs/exfs.c:468-521 | a committed state stays good while its protected blocks keep their bytes |
| `Image.ProtectedUntouched` | source/core/exfs/exfs.c:85-99 | free blocks and pending map slots are disjoint from everything the committed state reaches |
| `Image.StoredIsContent` | source/core/exfs/exfs.c:833-867 | blocks = ceil(size / 4096) with zeros after the end determine the file's bytes |
| `Image.GeometryOk` | source/core/exfs/exfs.c:71-79 | every accepted disk size gives a well-formed geometry |
| `ContentIO.WriteWhole` | source/core/exfs/exfs.c:688-736 | whole blocks of the buffer, the last one zero-filled, land in the taken runs and nowhere else |
| `ContentIO.MergePage` | source/core/exfs/exfs.c:741-830 | the page written for a touched block is the old page with the new bytes spliced in and zeros past the old end |
| `ContentIO.WriteRange` | source/core/exfs/exfs.c:741-830 | the blocks of the touched range hold the pages of the spliced file; all old blocks keep their bytes |
| `ContentIO.ReadRange` | source/core/exfs/exfs.c:833-867 | block-wise reading returns the byte range |
| `ContentIO.Seek` | source/core/exfs/exfs.c:833-867 | finds the extent and offset of a logical block |
| `ContentIO.BuildStage` | source/core/exfs/exfs.c:741-830 | the stage list is old blocks before, new blocks, old blocks after, in order, with as few extents as the runs of that sequence; fails if and only if there are more runs than a list has extents |
| `ContentIO.SpliceStored` | source/core/exfs/exfs.c:741-830 | old pages around new ones store exactly the spliced bytes |
| `Transfer.TakeFresh` | source/core/exfs/exfs.c:85-92 | takes exactly the blocks asked for, none in use before, or gives all back; out of space only when fewer are free; out of memory only when the free space is in at least as many pieces as a list has extents; never more runs than pieces and one |
| `Transfer.NextPiece` | source/core/exfs/exfs.c:85-92 | every run after the first starts a piece of the free space as it was at the beginning |
| `Transfer.ReleaseFresh` | source/core/exfs/exfs.c:95-99 | gives back exactly the blocks taken |
| `Transfer.ApplyDeferred` | source/core/exfs/exfs.c:262-268 | frees exactly the deferred blocks |
| `GroupMap.GMap.constructor` | source/core/exfs/gmap.c:52-74 | an initialised map of the geometry |
| `GroupMap.GMap.Load` | source/core/exfs/gmap.c:108-133 | a group's bits become cached and whatever is evicted reaches only its pending slot; no error loses anything unless the group is not cached and the least recently used entry is dirty; then the bits are lost if and only if the write fails and the disk does not hold them |
| `GroupMap.GMap.Touch` | source/core/exfs/gmap.c:108-114 | a hit makes the entry the youngest and changes no bit |
| `GroupMap.GMap.Replace` | source/core/exfs/gmap.c:115-133 | a miss replaces the least recently used entry and no other, writing it back first if it is dirty; a failure leaves that entry empty |
| `GroupMap.GMap.Victim` | source/core/exfs/gmap.c:108-133 | an empty entry, or the least recently used one |
| `GroupMap.GMap.Fill` | source/core/exfs/gmap.c:108-133 | the entry holds the group's newest copy on disk; a failed read loses nothing |
| `GroupMap.GMap.FlushOne` | source/core/exfs/gmap.c:98-104 | a dirty entry goes to the slot that is not committed |
| `GroupMap.GMap.Take` | source/core/exfs/gmap.c:158-188 | takes a free run of the flat bitmap, at most as long as asked, starting at the first free block at or after the hint going round once; no space exactly when nothing is free; an empty run exactly when the hint lies past the group's end |
| `GroupMap.GMap.Search` | source/core/exfs/gmap.c:166-188 | the groups in turn from the hint's, the first one again last: the block found is the first free one in that order, and no space means that every block is in use |
| `GroupMap.FoundFirst` | source/core/exfs/gmap.c:166-188 | the first free bit of the first group with one, after all groups before it in turn, is the first free block in turn |
| `GroupMap.NoneLeft` | source/core/exfs/gmap.c:166-188 | once round without a free bit means every block is in use |
| `GroupMap.GMap.TakeIn` | source/core/exfs/gmap.c:158-188 | within one group: the first free bit at or after the start, and the run from it; no space only when there is none |
| `GroupMap.GMap.TakeBits` | source/core/exfs/gmap.c:172-188 | the run from the free bit found is taken, no longer than asked and no longer than it is free |
| `GroupMap.GMap.ReleaseOne` | source/core/exfs/gmap.c:190-202 | one bit of the flat bitmap cleared; a free block is an error |
| `GroupMap.GMap.Release` | source/core/exfs/gmap.c:190-202 | a run released block by block: an error part way leaves exactly the blocks before it free |
| `GroupMap.GMap.IsUsed` | source/core/exfs/gmap.c:204-210 | agrees with the flat bitmap, and past the end of the volume with the bit the last group's page holds |
| `GroupMap.GMap.Flush` | source/core/exfs/gmap.c:135-142 | every group's newest bits are on disk in their pending slots |
| `GroupMap.GMap.Export` | source/core/exfs/gmap.c:144-149 | the slots and counts a superblock must carry for this bitmap |
| `GroupMap.GMap.Commit` | source/core/exfs/gmap.c:151-156 | pending slots become the committed ones, the bitmap unchanged |
| `GroupMap.GMap.Import` | source/core/exfs/gmap.c:88-95 | the bitmap becomes the one the given slots hold on disk |
| `GroupMap.GMap.FreeTotal` | source/core/exfs/gmap.c:212-216 | the number of free blocks |
| `GroupMap.GMap.Format` | source/core/exfs/gmap.c:76-86 | a fresh map on disk, writing only first slots |
| `GroupMap.GMap.FormatOne` | source/core/exfs/gmap.c:39-50 | one group's fresh bits land without disturbing another's |
| `GroupMap.ExportReproduces` | source/core/exfs/gmap.c:135-156 | flush, export, then import of the exported tables gives the same bitmap and counts |
| `GroupMap.FreeTotalIsRest` | source/core/exfs/gmap.c:212-216 | free blocks and used blocks make up the volume |
| `GroupMap.FreshUsed` | source/core/exfs/gmap.c:39-50 | a fresh map uses exactly superblocks, tables, map slots and nothing else |
| `GroupMap.TakesRun` | source/core/exfs/gmap.c:158-188 | setting a run's bits takes exactly that run and lowers one count by its length |
| `GroupMap.ClearBitFrees` | source/core/exfs/gmap.c:190-202 | clearing a bit frees exactly that block |
| `GroupMap.PendingWriteKeeps` | source/core/exfs/gmap.c:98-104 | a write to a pending slot disturbs no group's newest copy |
| `GroupMap.ChangeLost` | source/core/exfs/gmap.c:108-133 | a state in which it happens, as a format and the taking of one block leave it: eight groups cached, the oldest dirty; whatever the failed write left in its pending slot, dropping it loses that the block was taken |
| `GroupMap.DropKeeps` | source/core/exfs/gmap.c:108-133 | dropping a cached entry keeps the bitmap if and only if the disk holds that group's bits, as it does for every clean entry |
| `GroupMap.FreeHasTwoSlots` | source/core/exfs/gmap.c:39-50 | a group with a free block has both its map slots on the disk, so a last group of one block is never dirty and never written again |
| `GroupMap.SlotsDistinct` | source/core/exfs/gmap.c:9-11 | no two slots of the map share a block |
| `Extents.StageAdd` | source/core/exfs/exfs.c:636-649 | appends a run: joined to the last extent exactly if it continues it and the length stays below 2^32, otherwise a new extent exactly if there is a place; the block sequence is the old one and the run |
| `Extents.WalkStage` | source/core/exfs/exfs.c:653-671 | appends exactly logical blocks [lo, hi) of a list, merged; fails if and only if the blocks so far are in more runs than a list has extents |
| `Extents.MergedStep` | source/core/exfs/exfs.c:636-649 | a staged list has exactly one extent for each run of consecutive blocks |
| `Extents.FewRuns` | source/core/exfs/exfs.c:636-649 | the blocks of any list are in at most as many runs as the list has extents |
| `Extents.WalkDefer` | source/core/exfs/exfs.c:653-671 | defers exactly logical blocks [lo, hi) of a list |
| `Extents.OldPhys` | source/core/exfs/exfs.c:674-684 | the physical block of a logical one, when there is one |
| `Extents.CountBlocks` | source/core/exfs/exfs.c:741-760 | the number of blocks of a list |
| `ExtentPool.Pool.Compact` | source/core/exfs/exfs.c:129-153 | slices move down in place: every list is kept, slices stay disjoint and in bounds, and the free part is one run at the end |
| `ExtentPool.Pool.Reserve` | source/core/exfs/exfs.c:162-171 | fails exactly when the rounded capacity exceeds the slots not held |
| `ExtentPool.Pool.Find` | source/core/exfs/exfs.c:118-125 | the lowest free run of that length, if any |
| `ExtentPool.Pool.Mark` | source/core/exfs/exfs.c:109-115 | sets exactly the flags of the slice |
| `ExtentPool.Pool.Release` | source/core/exfs/exfs.c:173-175 | a file's slice becomes free, others untouched |
| `ExtentPool.Pool.Attach` | source/core/exfs/exfs.c:688-736 | the reserved slice becomes the file's, holding its new list |
| `ExtentPool.Pool.Place` | source/core/exfs/exfs.c:129-153 | one slice copied down over itself keeps every list |
| `ExtentPool.Pool.Order` | source/core/exfs/exfs.c:129-153 | all slices in ascending order of place |
| `ExtentPool.Pool.CopyDown` | source/core/exfs/exfs.c:129-153 | a forward copy of an overlapping range |
| `ExtentPool.SliceCapFor` | source/core/exfs/exfs.c:155-159 | the doubled capacity that holds n extents |
| `ExtentPool.HeldSize` | source/core/exfs/exfs.c:162-171 | the slots held are the sum of the capacities |
| `ExtentPool.FreeRunFits` | source/core/exfs/exfs.c:162-171 | a free run is no longer than what is not held |
| `Superblock.Fnv64` | source/core/exfs/sb.c:24-31 | the loop computes FNV-1a modulo 2^64 |
| `Superblock.DecodeEncode` | source/core/exfs/sb.c:51-88 | decoding an encoded record gives it back exactly when its fields are valid |
| `Image.AcceptedIsWritten` | source/core/exfs/sb.c:33-88 | the fields of a superblock are accepted if and only if they are what a commit of some state writes; odd generations use the second table area |
| `Superblock.OneByteRejected` | source/core/exfs/sb.c:70-88 | a page that differs from an encoded one in exactly one byte is rejected |
| `Superblock.FnvOneByte` | source/core/exfs/sb.c:24-31 | strings that differ in one byte hash differently |
| `Superblock.FnvKeepsApart` | source/core/exfs/sb.c:24-31 | different states stay different through any bytes: each step is injective |
| `Superblock.MulInjective` | source/core/exfs/sb.c:24-31 | multiplying by the FNV prime is injective modulo 2^64 |
| `InodeTable.RecordReadsBack` | source/core/exfs/exfs.c:182-234 | an encoded record with its chain on disk decodes to the same name, kind, size, list and chain |
| `InodeTable.ChainReadsBack` | source/core/exfs/exfs.c:198-234 | chain pages decode to the list's remaining extents |
| `InodeTable.ChainFits` | source/core/exfs/exfs.c:361-370 | a file gets exactly as many chain blocks as its extents past the inline ones need; 2048 extents never need more than 16 |
| `InodeTable.ChainPageReads` | source/core/exfs/exfs.c:388-400 | one chain page decodes to its extents and its link |
| `Namespace.CheckName` | source/core/exfs/exfs.c:282-292 | accepts exactly the well-formed names |
| `Namespace.ParentOk` | source/core/exfs/exfs.c:300-311 | true exactly when the parent is the root or a used directory |
| `Namespace.HasChildren` | source/core/exfs/exfs.c:335-346 | true exactly when a used name lies below, whatever bytes follow a terminator |
| `Namespace.Find` | source/core/exfs/exfs.c:272-280 | the one used record with the name, if any |
| `Namespace.SameName` | source/core/exfs/exfs.c:272-280 | compares up to the terminator |
| `Namespace.AncestorsAreDirs` | source/core/exfs/exfs.c:300-346 | in a tree, every proper ancestor of a used name is a used directory |
| `Namespace.TreeAdd` | source/core/exfs/exfs.c:314-333 | adding a new name under a directory keeps the tree |
| `Namespace.TreeRemove` | source/core/exfs/exfs.c:560-572 | removing a name with nothing below keeps the tree |
| `Namespace.PrefixInField` | source/core/exfs/exfs.c:335-346 | stale bytes after a terminator never make a prefix |
| `Bytes.GetPut` | source/core/exfs/exfs.c:41-54 | a little-endian field reads back |
| `Bytes.UnpackPack` | source/core/exfs/gmap.c:19-26 | packed bitmap bytes unpack to the same bits |
| `BlockDevice.Device.Write` | source/core/blk/blk.c:21-26 | a write that reports success has reached the disk; one that fails may or may not have; on a reliable device a write in range succeeds |
| `XQueue.RingIsFifo` | source/arch/amd64/syslib/core/xqueue.c:28-64 | in every interleaving of the producer's and the consumer's single loads and stores, a command moving word by word, what is consumed is a prefix of what was submitted, in order and untorn, and at most 255 commands wait |
| `XQueue.InvRun` | source/arch/amd64/syslib/core/xqueue.c:28-64 | the ring invariant holds after any run of loads and stores of single words |
| `XQueue.ProducerStep` | source/arch/amd64/syslib/core/xqueue.c:28-47 | each producer step keeps the invariant |
| `XQueue.ConsumerStep` | source/arch/amd64/syslib/core/xqueue.c:52-64 | each consumer step keeps the invariant |
| `XQueue.StoreHitsNoUnreadSlot` | source/arch/amd64/syslib/core/xqueue.c:28-47 | the producer's stores never hit an unread slot |
| `XQueue.RefusalsAreExact` | source/arch/amd64/syslib/core/xqueue.c:28-64 | full and empty are answered from indices that make them true |
| `PhysMem.Phys.AllocFrames` | source/arch/amd64/kernel/xeret/mem/physical.c:150-188 | the lowest run of n free frames; failure exactly when there is none; counters keep counting the bits |
| `PhysMem.FirstFitKeeps` | source/arch/amd64/kernel/xeret/mem/physical.c:150-188 | first fit never cuts a free run in two: every free run loses at most the frames taken, all at its front |
| `PhysMem.NothingFree` | source/arch/amd64/kernel/xeret/mem/physical.c:150-188 | a failed search for one frame means the free count is zero |
| `PhysMem.Phys.FreeFrames` | source/arch/amd64/kernel/xeret/mem/physical.c:190-213 | for every start and length: the run becomes free, twice freed stays free, a range past the end is ignored, counters exact |
| `PhysMem.Phys.AllocHuge` | source/arch/amd64/kernel/xeret/mem/physical.c:215-251 | the lowest 512 free frames on a 2 MiB boundary, found although the scan skips; failure exactly when there is none |
| `PhysMem.CountTaken` | source/arch/amd64/kernel/xeret/mem/physical.c:172-180 | taking a free run lowers the count by its length |
| `PhysMem.CountFreed` | source/arch/amd64/kernel/xeret/mem/physical.c:203-211 | freeing a used run raises it by its length |
| `TokenLedger.Ledger.SealRam` | source/arch/amd64/kernel/xeret/mem/token_ledger.c:88-110 | a token no one has seen, in a free slot, unpinned; fails exactly when the table is full or nothing is sealed |
| `TokenLedger.Ledger.ClaimSlot` | source/arch/amd64/kernel/xeret/mem/token_ledger.c:51-63 | the first free slot from the hint on, going round, if there is one |
| `TokenLedger.Ledger.Drop` | source/arch/amd64/kernel/xeret/mem/token_ledger.c:204-236 | each refusal if and only if its condition holds of the token's entry: stale for a dead, foreign or reused token, busy for a mapped one, rights for one without the release right; on success that slot alone is cleared and its generation moves on, so the token is stale |
| `TokenLedger.Ledger.MapAcquire` | source/arch/amd64/kernel/xeret/mem/token_ledger.c:297-317 | check and pin in one section: stale, wrong kind, wrong owner, missing rights and a full pin count each if and only if its condition holds and no earlier one; the token is pinned exactly when every check passes |
| `TokenLedger.ReleaseExactly` | source/arch/amd64/kernel/xeret/mem/token_ledger.c:204-236 | the status of a release, each by the conditions on the entry alone |
| `TokenLedger.AcquireExactly` | source/arch/amd64/kernel/xeret/mem/token_ledger.c:297-317 | the status of an acquisition, each by the conditions on the entry alone |
| `TokenLedger.Ledger.MapRelease` | source/arch/amd64/kernel/xeret/mem/token_ledger.c:319-327 | takes one pin off a live token |
| `TokenLedger.Ledger.OwnerTokens` | source/arch/amd64/kernel/xeret/mem/token_ledger.c:262-272 | the owner's first live tokens in slot order |
| `TokenLedger.Ledger.OwnerUsage` | source/arch/amd64/kernel/xeret/mem/token_ledger.c:274-287 | frames and tokens an owner holds |
| `TokenLedger.OwnerListLive` | source/arch/amd64/kernel/xeret/mem/token_ledger.c:262-272 | listed tokens are live, the owner's, one per slot |
| `FrameMemory.Memory.AllocRam` | source/arch/amd64/kernel/xeret/mem/token_ledger.c:122-143 | a fresh token of zeroed frames under interference of other CPUs; on one CPU it fails exactly when no run or no slot is free and then changes nothing |
| `FrameMemory.Memory.AllocRamHuge` | source/arch/amd64/kernel/xeret/mem/token_ledger.c:145-163 | the same for 2 MiB |
| `FrameMemory.Memory.Seal` | source/arch/amd64/kernel/xeret/mem/token_ledger.c:116-143 | frames are cleared before they are sealed, and handed back when the table is full |
| `FrameMemory.Memory.ZeroFrames` | source/arch/amd64/kernel/xeret/mem/token_ledger.c:116-120 | every frame of the run reads as zeros, no other changes |
| `FrameMemory.Memory.Release` | source/arch/amd64/kernel/xeret/mem/token_ledger.c:199-245 | the entry dies first, its frames are freed after; the status is the ledger's as found under the lock, and a mapped token is refused |
| `FrameMemory.Memory.MapAcquire` | source/arch/amd64/kernel/xeret/mem/token_ledger.c:297-317 | pinning keeps every frame in its place whatever other CPUs did before |
| `FrameMemory.Memory.MapRelease` | source/arch/amd64/kernel/xeret/mem/token_ledger.c:319-327 | unpinning keeps every frame in its place |
| `FrameMemory.Memory.Yield` | source/arch/amd64/kernel/xeret/mem/token_ledger.c:83-143 | any sections of other CPUs keep the balance, this CPU's frames in flight and every pinned token |
| `FrameMemory.AllocBalance` | source/arch/amd64/kernel/xeret/mem/physical.c:150-188 | allocation moves frames from free to in flight |
| `FrameMemory.FreeBalance` | source/arch/amd64/kernel/xeret/mem/physical.c:190-213 | freeing moves frames from in flight to free |
| `FrameMemory.EntryBalance` | source/arch/amd64/kernel/xeret/mem/token_ledger.c:88-110 | a ledger entry takes over or gives up exactly the frames it names |
| `FrameMemory.InOnePlace` | source/arch/amd64/kernel/xeret/mem/token_ledger.c:83-163 | every used frame has exactly one holder |
| `FrameRuns.FramesConserved` | source/arch/amd64/kernel/xeret/mem/token_ledger.c:83-245 | in every interleaving of any CPUs' lock-protected sections each frame is free, reserved, in flight, in one live token or one page table, and the free counter counts the free bits |
| `FrameRuns.PinnedSurvive` | source/arch/amd64/kernel/xeret/mem/token_ledger.c:199-245 | no section of any CPU releases a pinned token |
| `FrameRuns.StaleInRuns` | source/arch/amd64/kernel/xeret/mem/token_ledger.c:204-236 | in every interleaving a released token is live again if and only if its slot is in use and was released a multiple of 2^32 - 1 times, so never before that many releases |
| `FrameRuns.Perform` | source/arch/amd64/kernel/xeret/mem/physical.c:150-251 | every section the bitmap's and the ledger's own methods run is a step of the relation those statements are about, or changes nothing |
| `FrameRuns.Interleave` | source/arch/amd64/kernel/xeret/mem/token_ledger.c:83-245 | so whatever CPUs ask of them, in any order, makes a run, in whose states every frame has one holder |
| `FrameRuns.FreeKeeps` | source/arch/amd64/kernel/xeret/mem/physical.c:190-213 | freeing what is in flight keeps the balance and the counter |
| `FrameRuns.LedgerKeeps` | source/arch/amd64/kernel/xeret/mem/token_ledger.c:88-245 | seal, release, pin and unpin keep the balance |
| `PageTables.WalkIsLeaf` | source/arch/amd64/kernel/xeret/mem/paging.c:203-215 | what a four-level walk finds, permissions combined on the way, is the flat page table's entry |
| `PageTables.AddTable` | source/arch/amd64/kernel/xeret/mem/paging.c:127-137 | hanging a zeroed table under its parent keeps the unshared tree and changes no translation |
| `PageTables.SetLeaf` | source/arch/amd64/kernel/xeret/mem/paging.c:293-315 | writing one leaf entry changes exactly one translation |
| `PageTables.WholeSpace` | source/arch/amd64/kernel/xeret/mem/paging.c:467-485 | the frames of a space are its root and the tables under entries 1 to 255 |
| `PageTables.SubStep` | source/arch/amd64/kernel/xeret/mem/paging.c:470-484 | the tables under an entry are its child and the tables under that |
| `PageTables.DropSpace` | source/arch/amd64/kernel/xeret/mem/paging.c:467-485 | removing a space with nothing mapped keeps every other space |
| `PageTables.NewSpace` | source/arch/amd64/kernel/xeret/mem/paging.c:334-360 | a root with an empty user half is a space with nothing mapped |
| `PageTables.RemoveAdded` | source/arch/amd64/kernel/xeret/mem/paging.c:410-418 | removing the pages a call added gives the page table back |
| `Paging.Paging.NextLevel` | source/arch/amd64/kernel/xeret/mem/paging.c:127-137 | the child table, made when missing; the tree stays unshared and no translation changes |
| `Paging.Paging.WayTo` | source/arch/amd64/kernel/xeret/mem/paging.c:293-299 | the table that holds a page's entry, with every table on the way made when missing; on one CPU free frames and tables together stay the same number |
| `Paging.Paging.AllocZeroTable` | source/arch/amd64/kernel/xeret/mem/paging.c:61-67 | a zeroed frame that is no table yet |
| `Paging.Paging.MapPage` | source/arch/amd64/kernel/xeret/mem/paging.c:293-305 | maps exactly one page, or reports busy if and only if it is mapped and then adds no table, or runs out with no translation changed; out of memory only when no frame is free, and never when the tables are there; only tables on the way to the page are added, and every free run is shortened by at most three frames |
| `Paging.Paging.WalkPte` | source/arch/amd64/kernel/xeret/mem/paging.c:283-291 | the place of a page's entry, or none when a table is missing |
| `Paging.Paging.UnmapPages` | source/arch/amd64/kernel/xeret/mem/paging.c:307-315 | clears exactly the pages of the range |
| `Paging.Paging.MapRange` | source/arch/amd64/kernel/xeret/mem/paging.c:410-419 | all pages or none: a failure takes back what the call mapped; busy adds exactly the tables on the way to the pages before the first mapped one; out of memory only when no frame is free, and then every frame that was free is a table; only tables on the way to the pages are added, and every free run is shortened by at most three frames a page |
| `Paging.RangeStep` | source/arch/amd64/kernel/xeret/mem/paging.c:410-419 | after each page the tables are those of the pages so far, and a mapped page adds none |
| `Paging.Paging.FreeBelow` | source/arch/amd64/kernel/xeret/mem/paging.c:467-485 | frees every table below the given entries, each once |
| `Paging.Paging.FreeSpace` | source/arch/amd64/kernel/xeret/mem/paging.c:467-488 | frees every table of the space and its root, each once, and no shared table |
| `Paging.Paging.NewRoot` | source/arch/amd64/kernel/xeret/mem/paging.c:337-353 | a root sharing the kernel's entries; refused exactly when the kernel's user half is not empty |
| `Mappings.NewRecord` | source/arch/amd64/kernel/xeret/mem/paging.c:421-426 | a record for newly mapped pages keeps records, pages and counts in step |
| `Mappings.GoneRecord` | source/arch/amd64/kernel/xeret/mem/paging.c:318-322 | dropping a record with its pages and its pin keeps them in step |
| `Mappings.OthersKeep` | source/arch/amd64/kernel/xeret/mem/paging.c:13-14 | what other CPUs do to unpinned tokens disturbs no mapping |
| `Mappings.PageIsolated` | source/arch/amd64/kernel/xeret/mem/paging.c:362-429 | a mapped page reaches one frame of a live token of the space's owner within its rights, never writable and executable, never a free frame or a table |
| `Mappings.NoSharing` | source/arch/amd64/kernel/xeret/mem/paging.c:362-429 | pages on one frame belong to one token, so to one owner |
| `AddressSpaces.Isolated` | source/arch/amd64/kernel/xeret/mem/paging.c:362-488 | in every reachable state a process's translations reach only its owner's token frames, and spaces of different owners share no frame |
| `AddressSpaces.TranslationIsRecords` | source/arch/amd64/kernel/xeret/mem/paging.c:362-488 | a user page translates if and only if a live record covers it, and then as the record says |
| `AddressSpaces.Kernel.Create` | source/arch/amd64/kernel/xeret/mem/paging.c:334-360 | a new space with nothing mapped and the kernel half shared; refused for the kernel as owner; out of memory only when no frame is free |
| `AddressSpaces.Kernel.Map` | source/arch/amd64/kernel/xeret/mem/paging.c:362-429 | maps the whole token onto free pages with one record and one pin, or changes nothing a process can see; with any number of CPUs every refusal is exact by the ledger as found under the lock and adds no table, an occupied page adds exactly the tables on the way to the pages before it, and only an empty frame pool gives out of memory past the refusals |
| `AddressSpaces.RefusalExactly` | source/arch/amd64/kernel/xeret/mem/paging.c:362-411 | each refusal of a map call if and only if its own condition holds and no earlier one: dead space or permissions, write with execute, address, records of the owner, token, owner, rights, pins, length, free records |
| `AddressSpaces.Kernel.Place` | source/arch/amd64/kernel/xeret/mem/paging.c:394-428 | with the token pinned: every failure path takes the pin back; which tables each outcome adds |
| `AddressSpaces.Kernel.DropRecord` | source/arch/amd64/kernel/xeret/mem/paging.c:318-322 | exactly one record, its pages and its pin go |
| `AddressSpaces.Kernel.Unmap` | source/arch/amd64/kernel/xeret/mem/paging.c:431-444 | drops the record at the address, or reports that there is none |
| `AddressSpaces.Kernel.Revoke` | source/arch/amd64/kernel/xeret/mem/paging.c:446-457 | drops exactly the token's records, in every space, counts them, and leaves it unpinned |
| `AddressSpaces.Kernel.Destroy` | source/arch/amd64/kernel/xeret/mem/paging.c:459-488 | drops exactly the space's records and frees its tables; other spaces keep their pages |
| `AddressSpaces.Kernel.CountOwner` | source/arch/amd64/kernel/xeret/mem/paging.c:384-388 | the owner's live records |
| `AddressSpaces.Kernel.FindFree` | source/arch/amd64/kernel/xeret/mem/paging.c:400-403 | the first free record |
| `AddressSpaces.NoneLeft` | source/arch/amd64/kernel/xeret/mem/paging.c:446-457 | with its records gone a token has no pin left, because counts equal records |
| `AddressSpaces.CappedSet` | source/arch/amd64/kernel/xeret/mem/paging.c:382-388 | no owner ever holds more than 64 of the records |
| `Syscalls.System.Alloc` | source/arch/amd64/kernel/xeret/sys.c:67-89 | invalid if and only if no frame or no right is asked for, not permitted if and only if the mask has a bit past the six rights or names DMA, with any number of CPUs; on one CPU out of memory only when the quota is exceeded, no run is long enough or the ledger is full; otherwise exactly one token of the frames asked for with the rights of the mask |
| `Syscalls.System.MapCall` | source/arch/amd64/kernel/xeret/sys.c:91-94 | each answer by the records, the ledger as found under the lock and the page tables: what makes it invalid, not permitted, out of range, a bad token, busy or out of memory; done adds one record for the whole token, any other answer none; quotas untouched |
| `Syscalls.System.UnmapCall` | source/arch/amd64/kernel/xeret/sys.c:96-98 | invalid if and only if the address space is dead, no such mapping if and only if no record of it starts at the address, done if and only if one does; done drops exactly that record with its pages and its one pin, every other answer leaves all as it was |
| `Syscalls.System.Free` | source/arch/amd64/kernel/xeret/sys.c:100-108 | the answer by the ledger as found under the lock: bad token if and only if the token is not a live one of the caller, not permitted if and only if it lacks the release right, busy if and only if it has it and is mapped, done otherwise; done kills exactly that entry |
| `Syscalls.System.Info` | source/arch/amd64/kernel/xeret/sys.c:110-123 | reports usage and limits |
| `Syscalls.RightsAreBits` | source/arch/amd64/kernel/xeret/sys.c:67-73 | a mask of six bits is the sum of the bits of the rights it names, and a process may ask for it if and only if DMA is not among them |
| `Syscalls.MapReplies` | source/arch/amd64/kernel/xeret/sys.c:50-66 | the error a map call answers, from its arguments and what it finds: every refusal has its own condition |
| `Syscalls.FreeAnswers` | source/arch/amd64/kernel/xeret/sys.c:100-108 | the four answers of a free, each with the condition on the token's entry that gives it |
| `Syscalls.System.Resource` | source/arch/amd64/kernel/xeret/sys.c:125-134 | every call keeps every kernel invariant and, on one CPU, every owner within its limits; each number has its call's effect and answer, and unknown numbers change nothing |
| `Syscalls.System.SetQuota` | source/arch/amd64/kernel/xeret/sys.c:29-35 | sets the limits of a process owner, whatever it holds; what it held above them it keeps, and no one else's limits change |
| `Syscalls.System.Reap` | source/arch/amd64/kernel/xeret/sys.c:136-158 | ends, returns exactly the number of tokens held, and leaves the owner no token and no mapping in any space; exactly its records and their pages go, and every other owner's tokens, records, pages and memory are as before |
| `Syscalls.System.ReapBatch` | source/arch/amd64/kernel/xeret/sys.c:147-151 | every listed token is unmapped everywhere and reclaimed; no record, page or memory of another owner changes |
| `Syscalls.ForeignIsMissing` | source/arch/amd64/kernel/xeret/sys.c:5-9 | someone else's token and a missing one give the same answers |
| `Syscalls.NoneOwned` | source/arch/amd64/kernel/xeret/sys.c:136-158 | an owner without tokens has no mappings |
| `SystemRuns.Run` | source/arch/amd64/kernel/xeret/sys.c:11-158 | after any run of spawns, calls, destroyed spaces, revocations, reclaims and new limits, on any number of CPUs, all processes are isolated, translations are the live records and mapping counts are their numbers; with loads and reaping on one CPU as well, where every process is within its quota too, or within what it held when a lower one was set |
| `SystemRuns.Secure` | source/arch/amd64/kernel/xeret/sys.c:11-158 | the kernel invariant gives all of this: no frame shared between owners, every page granted by its owner's token, translations exactly the records, counts exactly their numbers |
| `SystemRuns.Step` | source/arch/amd64/kernel/xeret/sys.c:125-158 | each event keeps every invariant and every handle, and only a limit set below what is held takes an owner out of its quota |
| `Crc.NibbleIsBits` | source/core/exb/exb.c:11-19 | one look-up in the 16-entry table does four bit steps of the reflected CRC-32 polynomial |
| `Crc.Rfc1952` | source/core/exb/exb.c:10-22 | the register follows the update step of section 8 of RFC 1952 |
| `Crc.ByteTableIsBits` | source/core/exb/exb.c:10-22 | eight bit steps are the RFC's byte table with the rest of the register passing through |
| `Crc.CrcImage` | source/core/exb/exb.c:10-22 | for every length the loop computes the standard CRC-32 of the image with bytes 28 to 31 read as zero |
| `Exb.Parse` | source/core/exb/exb.c:31-158 | returns the status of the first failing check and the described segments and requests, ExbOk if and only if the image meets the format's conditions on its fields; a failure returns an all-zero record |
| `Exb.CheckHeader` | source/core/exb/exb.c:33-43 | the header checks in order |
| `Exb.CheckSegs` | source/core/exb/exb.c:63-110 | the first complaint about a segment, or all segments and their page sum: each segment is checked alone and against all before it |
| `Exb.FindEntry` | source/core/exb/exb.c:112-117 | whether the entry point lies in the file part of an executable segment |
| `Exb.CheckCaps` | source/core/exb/exb.c:120-150 | what the requests ask for, or a refusal |
| `Exb.AcceptsExactly` | source/core/exb/exb.c:31-151 | an image is accepted if and only if it meets the format's conditions, stated on fields without an order of checks: header, tables, each segment's flags, places and sizes, no byte of the file and no address in two of them, an executable segment's file part holding the entry point, and at most one well-formed request of each kind |
| `Exb.HeaderExactly` | source/core/exb/exb.c:33-43 | the header passes if and only if its fields are the format's, the size and checksum are right and the reserved bytes are zero |
| `Exb.TablesExactly` | source/core/exb/exb.c:45-61 | each code for the tables if and only if its condition holds; overlap means that some byte of the file belongs to both |
| `Exb.SegAnswers` | source/core/exb/exb.c:69-96 | each code for a single segment if and only if its condition on the segment's fields holds; overlap means that some byte of the file is the segment's and a table's |
| `Exb.SegmentsExactly` | source/core/exb/exb.c:63-110 | all segments pass if and only if each passes alone and no two share an address or a byte of the file |
| `Exb.SharingRefused` | source/core/exb/exb.c:87-108 | segments in order of which two share a byte or an address are answered with the overlap code |
| `Exb.ClashExactly` | source/core/exb/exb.c:98-108 | two segments clash if and only if some address or some byte of the file belongs to both |
| `Exb.RequestsExactly` | source/core/exb/exb.c:120-147 | the requests pass if and only if each is well formed and no kind is asked for twice |
| `Exb.LateRefusals` | source/core/exb/exb.c:112-151 | with header, tables and segments in order: the entry code if and only if no executable segment's file part holds the entry point, otherwise accepted or the request code |
| `Exb.UnsetRequests` | source/core/exb/exb.c:120-147 | the result is independent of what the caller's record held before if and only if the image has both a heap and a token request |
| `ExbPack.StaleRequests` | source/core/exb/exb.c:120-147 | an accepted image whose result does depend on it: a packed program of one segment without requests |
| `ExbPack.NoRequests` | source/core/exb/exb.c:120-147 | every packed program without requests hands the record's heap and token fields through |
| `ExbPack.BuildImage` | tools/exb/exbpack.rexx:73-115 | the packer's loops produce the laid-out image of the given kind with its checksum |
| `ExbPack.BuildArea` | tools/exb/exbpack.rexx:104-109 | the data of the parts, each padded to 16 bytes |
| `ExbPack.PackedAccepted` | tools/exb/exbpack.rexx:73-115 | the validator accepts a packed file if and only if it is of the user kind and the format can hold it |
| `ExbPack.ParseInvertsPack` | tools/exb/exbpack.rexx:73-115 | parsing a packed program gives back its segments, entry point and requests, and the file holds its bytes |
| `ExbPack.Overlaid` | tools/exb/exbpack.rexx:114-114 | writing the checksum changes no byte the checksum covers |
| `ExbPack.PlaceGrows` | tools/exb/exbpack.rexx:78-86 | data areas follow each other without overlap |
| `Loader.Load` | source/core/exb/load.c:54-121 | on any failure ledger, records, pages and the memory of tokens are as before and exactly the frames that were free and became no page table are free; refused arguments, images and quotas and foreign or dead spaces add no table, and for every other outcome it is known which were added; on success exactly one mapping per segment and one stack were added, holding file bytes then zeros, and the quota used is exactly what was checked; given a live space of the owner, a free run of four frames a page and one more, free slots and free records, a load within quota succeeds if and only if all its pages are vacant, and the tables it makes are a function of the state before |
| `Loader.LoadParts` | source/core/exb/load.c:67-115 | the segments in order, then the stack; the first failure undoes everything; where there is room the first part whose place is taken is the one that fails |
| `Loader.LoadSegs` | source/core/exb/load.c:67-96 | the segments in order, each filled and mapped; the first failure undoes everything |
| `LoadTables.TablesStay` | source/core/exb/load.c:33-38 | exactly when a failed load leaves no page table: if it could not get a token or a mapping was refused, those on the way to the parts mapped so far were there; if a page was mapped already, also those on the way to the pages before it; if frames ran out, none was left once the tokens had theirs |
| `LoadTables.TablesForeseen` | source/core/exb/load.c:67-115 | where there is room, exactly the tables on the way to the parts before the first whose place is taken, and to that one's pages before the taken one, are made, so none stays if and only if they were there before |
| `LoadTables.TablesNext` | source/core/exb/load.c:73-96 | part by part the tables and the free frames are accounted for |
| `Loader.FramesBack` | source/core/exb/load.c:33-38 | with all tokens as before, the frames in use are those in use before and the new tables |
| `LoadLeftover.TablesStayBehind` | source/core/exb/load.c:67-115 | a load with room for everything but with a part's place taken fails, and afterwards exactly the frames free before are free if and only if those tables were there |
| `LoadLeftover.TakenStack` | source/core/exb/load.c:98-115 | a state in which they were not: after boot, one process holding one page below the guard page, and a packed program of one segment |
| `Loader.LoadPart` | source/core/exb/load.c:74-95 | one token filled and mapped, or left for the rollback |
| `Loader.MapPart` | source/core/exb/load.c:90-94 | a part's token is mapped, or it is known why not and which tables were made; where there is room only a page mapped already stands in the way |
| `Loader.MapLayer` | source/core/exb/load.c:90-94 | the mapped token joins what a rollback would undo |
| `LoadRoom.MapWorks` | source/core/exb/load.c:90-94 | mapping a fresh token where frames and records suffice fails if and only if one of its pages is mapped already, and otherwise leaves room for the parts to come |
| `LoadRoom.GrantWorks` | source/core/exb/load.c:76-80 | where there is room a token is to be had |
| `Loader.SegmentReady` | source/core/exb/load.c:73-96 | whatever was loaded before, a segment's turn comes with its room intact |
| `Loader.StackReady` | source/core/exb/load.c:98-115 | the same for the stack |
| `Loader.PartUntouched` | source/core/exb/load.c:67-115 | whatever was loaded before, what is mapped in a part's place at its turn is what was mapped there before the load |
| `Loader.PermsMatch` | source/core/exb/load.c:40-53 | a segment's mapping permissions are its flags, and its token carries the rights they need, the right to release it and no other; the stack's is a writable segment's |
| `Loader.Grant` | source/core/exb/load.c:76-88 | a zeroed token holding the segment's file bytes, every older token's memory unchanged |
| `Loader.CopyIn` | source/core/exb/load.c:84-88 | the file bytes land in the token's frames, zeros after them, no other frame changed |
| `Loader.Rollback` | source/core/exb/load.c:33-38 | unmapping then releasing in reverse gives back the state before the load; no release is refused |
| `Loader.QuotaOk` | source/arch/amd64/kernel/xeret/load_amd64.c:22-33 | true exactly when frames and tokens fit the owner's limits |
| `Loader.SegmentBounds` | source/core/exb/exb.c:66-110 | accepted segments lie inside the file and the user half, pairwise disjoint, below the stack |
| `Loader.GoingUnmapped` | source/core/exb/load.c:33-38 | undoing the newest mapping gives back the page table, records and pins below it |
| `Loader.StackBounds` | source/core/exb/exb.c:120-133 | the stack is whole pages, at least one and at most 64 |

## Left out

- Volume.Vol.Write: lengths above 2^64 - 4096 are excluded, because the rounding wraps there (see `VolumeState.BlocksForExact`).
- Volume.Vol.WriteFile: the same.
- Volume.Vol.WriteTaken: the same.
- Volume.Vol.WriteAt: offsets and lengths are those a 64-bit caller can pass.
- Volume.Vol.Format: only a disk without a valid superblock and an unmounted volume; which old volumes a format replaces is `Image.FormatIsNewest`.
- Volume.Vol.FormatMap: as for Volume.Vol.Format.
- Volume.Vol.Commit: generations below 2^64 - 1; what happens at the wrap is `Image.CommitIsNewest`.
- Volume.Vol.CommitDirty: as for Volume.Vol.Commit, generations below 2^64 - 1.
- Volume.Vol.Publish: as for Volume.Vol.Commit, generations below 2^64 - 1.
- Volume.Vol.Unmount: as for Volume.Vol.Commit, generations below 2^64 - 1.
- VolumeRuns.Step: as for Volume.Vol.Commit, generations below 2^64 - 1.
- Volume.Vol.Mount: an I/O error while reading (`bad`) ends the claims; a transient error on one superblock lets the older one be chosen. A reliable device gives none.
- VolumeRuns.Run: the generation stays below 2^64 - 1; effects are no longer claimed after an I/O error of the block map outside a commit, recoverability of the disk is claimed throughout. A reliable device gives none.
- GroupMap.GMap.Release: blocks inside the volume only, as all callers pass.
- GroupMap.GMap.ReleaseOne: the same.
- GroupMap.GMap.IsUsed: blocks of existing groups only; for others the source reads past its tables.
- MountSteps.CheckNode: repeats the code's 64-bit sum, so a hand-made extent whose sum wraps passes; commits write no such extent (`CommitSteps.NodesFit`).
- Syscalls.System.Reap: one CPU, as the file itself assumes; with others allocating for the same owner there is no end to promise.
- Loader.Load: one CPU, for the same reason; the room that makes a load succeed is sufficient, not necessary, because it counts three page tables a page.
- Loader.LoadParts: one CPU, as in Loader.Load.
- Loader.LoadSegs: one CPU, as in Loader.Load.
- Loader.LoadPart: one CPU, as in Loader.Load.
- Loader.MapPart: one CPU, as in Loader.Load.
- Loader.MapLayer: one CPU, as in Loader.Load.
- Loader.Grant: one CPU, as in Loader.Load.
- Loader.Rollback: one CPU, as in Loader.Load.
- SystemRuns.Run: loads and reaping, and the claim about quotas, on one CPU only.
- SystemRuns.Step: the same.
- FrameRuns.FramesConserved: the frames of page tables are any set here; `Paging` ties them to the tables of the live address spaces.
- FrameMemory.Memory.Yield: other CPUs allocate, clear, seal, free and release; their own page-table work is excluded by the page-table lock while this CPU holds it, and is a step of `FrameRuns.FramesConserved` otherwise.
- Syscalls.System.ReapBatch: one CPU, as in Syscalls.System.Reap.
- Looking up a token's frames and checking its rights for other callers (`xtok_validate`, `xtok_ram_info`): one comparison each.
- EXFS listing, stat and size calls, and the bytes of unused inode records.
- A file's slice of the extent pool is mirrored by a list per file; offsets into the pool are modelled in `ExtentPool` only.
- Building the frame bitmap from the firmware's memory map, the kernel's own identity map and the window for device registers; the user half of the kernel's root table is read as a parameter.
- Control registers, TLB invalidation, ring-3 entry and exit, and the timer.
- Tokens of other kinds than RAM: nothing in these files makes one.
- Bytes that processes write into their own memory.
- The block layer, RAM disk, NVMe, PCI and the other drivers: the device contract stands for them.
- Converting ELF files to `.exb`, shell, console, keyboard, boot code: input and output, and small string work.
