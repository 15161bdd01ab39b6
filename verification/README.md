# Verification of the GENIX disk tools and the SYS16 disk controller

A Dafny model of two systems that meet on one disk image, with proofs. `dafny verify dfyconfig.toml` checks all of it.

**The System V filesystem.** `tools/mkfs.py` writes an image; `tools/s5fs.py`, which shares no code with it, reads one.
The writer is modelled twice: as steps on values (`FsModel`, `TreeModel`) and as it runs, a byte array, an inode table
and two dictionaries updated in place (`Fs.Fs`, `Mkfs.Builder`); each method is proved to do what the step does, errors
included. The reader is modelled as functions of the bytes and as its own loops (`S5Reader`). From there:

- what every step of `build` keeps (`TreeInvariant`, `TreeSteps`, `TreeRuns`, `TreeFinish`): runs of blocks that tile the
  allocated part of the image, link counts that count directory entries, `.` and `..` where they belong;
- where the bytes of a file are (`FileStore`), and that every later write leaves them alone (`RunProgress`, `Image`);
- the free list as a stack of block numbers (`FreeList`), against the kernel's `alloc`: pop `s_free[--s_nfree]`, take 0 for
  no space, reload the cache from the block that empties it; and number for number in the bytes (`FreeBytes`);
- when `build` succeeds and when its image can be written, as conditions on the input (`BuildOutcome`, `WriteOutcome`),
  and what it then stores (`BlockUse`, `InodeKinds`);
- the input accounted for (`TreeInput`, `InputAccounts`): exactly the directories asked for, files, devices, links and
  modes;
- the round trip (`Image`, `RoundTrip`, `WalkComplete`) and who owns which block (`Ownership`), both stated on the
  finished bytes, through the reader; and where the round trip would end (`WideBlocks`, `WideImage`);
- what the reader makes of any bytes, exactly: inodes, pointers, content and entries (`ReaderBytes`), the walk
  (`WalkExact`) and its order (`WalkOrder`), and what of an input it leaves out (`WalkLimits`);
- what the reader does not look at: times, magic numbers, names and filling (`Stamps`), the bits of modes and device
  numbers (`ModeBits`), and with which message a program stops (`Failures`).

**The disk controller.** The `dcu_*` functions of `patch/sys16.cpp`: registers, a one-shot timer, an interrupt line, and an
engine that follows IOCBs through the memory it writes to.

- `DcuModel` runs the engine as it is, on any memory; `DcuChain` decodes a chain beforehand and folds over it.
  `DcuChain.LiveRefinesChain` is the refinement; `DcuEffects` and `DcuRoundTrip` say what a fold does; `DcuEnding` says
  when the engine stops.
- `DcuBytes` starts and ends at raw memory: 28 bytes of an IOCB and the words of its table, laid down by a driver, and what
  a WRITE, a FORMAT, a read, and a read after a WRITE then leave in sectors and pages.
- `DcuMachine` is the state machine, its events in any order; `DcuCoherence` follows the geometry it caches over runs.
  `DcuCommands` is a command as a driver sees it: four register writes, a completion, and what they amount to.
- `Dcu.Dcu` is the controller with its fields and memory updated in place, each method equal to a function of the above.

**Where they meet.** `MkDisk` is the pack layout and header of `tools/mkdisk.py`; `EndToEnd` shows that a filesystem block
read through the controller is the block the filesystem's reader sees; `Rebuild` is `tools/rebuild-disk.sh`. `Coff` is the
kernel converter `tools/coff2genix.py`, its header word for word and where its output ends up in memory; `Utf8Names` says
which section names it can decode.

## What is true of the code and may surprise

- `alloc_inode` tests `>=`, so the last inode number is never handed out; `s_tinode` counts it as free.
- An address is three bytes, and a device number keeps its low 24 bits. `main` cannot write an image that reaches block
  2^24: `s_isize` overflows at half of that (`Mkfs.WritableIsNarrow`). Given an `Fs` with a smaller inode table `build` does
  get there. The round trip of a file then holds for all contents exactly when its run ends by block 2^24
  (`WideBlocks.RoundTripWidth`), and an accepted input reads back as an empty filesystem
  (`WideImage.WideImageReadsEmpty`).
- `build` accepts duplicate names, hard links to directories and names with a NUL. The walk is proved to be the listing
  of `entries` for all of them; a name is read up to its NUL.
- The walk shows what is at most 13 names below the root (`WalkExact.WalkShowsExactly`). Of fourteen directories one below
  the other it leaves out the last, which is on the image all the same (`WalkLimits.DeepIsCut`).
- A `dir` line can overwrite the type of its directory: with mode 0100000 the directory and all below it can still be found
  by name, but the walk does not enter it (`WalkLimits.DirLineKeepsType`, `WalkComplete.WalkShowsWhen`).
- `main` writes an image exactly for feasible input (`BuildOutcome.BuildSucceedsWhen`) whose modes, link counts and table
  fit their fields (`WriteOutcome.WritesWhen`).
- The count of free inodes is a 16-bit field, so from 524296 blocks up an image with no files cannot be written
  (`Mkfs.EmptyTree`).
- `store_data` runs out of room before it finds that a file needs triple indirection, if the image is small enough.
- A reset does not disarm the controller's timer (`DcuMachine.ResetLeavesTimer`).
- A chain of IOCBs that returns to an earlier link is followed until one of its links cannot be carried out, and for
  ever if all can (`DcuEnding.EndsExactly`, `DcuEnding.LoopNeverEnds`).
- Interrupts are lost when a command completes before the last completion was acknowledged;
  `DcuMachine.EdgesAreCompletions` says exactly when.
- Any opcode of an IOCB but WRITE and FORMAT reads.

## Modelling choices

- Integers are unbounded; every field width, sign and truncation of the sources is written out.
- `sys.exit`, `struct.error`, `KeyError` and the like are failures of a result type; what the image holds after a failure is
  not described, as the original writes no file then.
- The host tree is a sequence of visited directories with their files in the order `mkfs.py` stores them; spec lines come
  parsed. The timestamp is an input.
- A dictionary is a map together with the order of insertion of its keys, since `build` stores directories in that order.
- A drive is a sequence of 512-byte sectors and a set of bad ones; an access past the end or to a bad sector fails.
- Main memory is a byte array from address 0 on. Addresses are 32 bits and wrap; beyond the array reads give 0 and writes
  are lost.
- `Event.Store` lets the processor change memory between any two events; a timer can fire at any moment while armed.
- The engine's `while (true)` is run on chains that end: `DcuModel.Live` has a number of links to spare, on which the
  result does not depend (`DcuModel.LiveStable`), and a run may fire the timer only if the transfer ends.

## Model

| member | source | states |
|---|---|---|
| `S5Reader.S5.AppendBlocks` | tools/s5fs.py:30-31 | the loop appends the blocks of the pointers it is given, in order, a block of zeros for pointer 0 |
| `S5Reader.S5.AppendInner` | tools/s5fs.py:36-39 | the double-indirect loop stops at the first null second-level pointer and otherwise appends every block below it, or aborts on a short block |
| `S5Reader.S5.ReadData` | tools/s5fs.py:28-40 | the three levels of pointers in order, cut to `size` |
| `S5Reader.S5.Unpack` | tools/s5fs.py:46-50 | 16-byte records, those with inode 0 skipped, names cut at the first NUL; a partial record aborts |
| `S5Reader.S5.WalkFrom` | tools/s5fs.py:52-61 | the recursion with its shared accumulator appends the pre-order listing, `.` and `..` left out, no deeper than depth 12 |
| `ReaderBytes.InodeFields` | tools/s5fs.py:13-19 | on any bytes: inode n can be read if and only if the 51 bytes from 1984 + 64 n on are there, and each of its fields is the little-endian number at its offset |
| `ReaderBytes.PointersAre` | tools/s5fs.py:24-39 | on any bytes: pointers can be collected if and only if the blocks that hold them are there, and then pointer i is a direct one, a word of the single-indirect block, or a word of a second-level block before the first null |
| `ReaderBytes.DataBytes` | tools/s5fs.py:28-40 | on any bytes: byte k of a file is byte k mod 1024 of the block its pointer k / 1024 names, 0 where that is null |
| `ReaderBytes.EntriesAre` | tools/s5fs.py:42-50 | on any bytes: a directory can be listed if and only if its content is whole records, and the list is those with a number, in order, under their names up to a NUL |
| `FileStore.RunIndReads` | tools/s5fs.py:24-26 | every indirect block of a stored file, whatever its level, reads back as its block numbers and zeros in the unfilled slots |
| `FileStore.InnerJoins` | tools/s5fs.py:36-39 | concatenating second-level blocks up to the first null gives all the deep pointers in order |
| `FileStore.ReadPtrsAt` | tools/s5fs.py:28-39 | the i-th pointer the reader follows is the i-th data block the writer allocated, through direct, single and double pointers |
| `FileStore.DataInvertsStore` | tools/mkfs.py:95-132 | `S5.data` of a stored file returns its content, for every size up to (10 + 256 + 65536) blocks below block 2^24 |
| `AllocInvariant.StoreSucceedsWhen` | tools/mkfs.py:95-132 | `store_data` succeeds if and only if the content is at most (10 + 256 + 65536) * 1024 bytes and the blocks it needs, indirect ones included, fit the image |
| `Failures.OutOfInodesWhen` | tools/mkfs.py:86-93 | `alloc_inode` stops with its message if and only if fewer than two numbers are left |
| `Failures.StoreStops` | tools/mkfs.py:78-132 | `store_data` stops for triple indirection if and only if the content passes 65802 blocks and the image had room for its data blocks and 258 more; any other stop is a full image |
| `AllocInvariant.AllocInodeOk` | tools/mkfs.py:86-93 | allocating an inode keeps the runs of blocks, the files and the table of inode numbers consistent |
| `AllocInvariant.StoreDataOk` | tools/mkfs.py:95-132 | storing a file keeps the runs of all files tiling `[first_data, next_block)`, each inode's addresses and size those of its run |
| `AllocInvariant.DeviceOk` | tools/mkfs.py:262-264 | a device number in `addr[0]` of a file with no content owns no block and disturbs no file |
| `Fs.Fs.constructor` | tools/mkfs.py:60-70 | a zeroed image, i-list sized up to whole blocks, allocation starting behind it and at inode 2 |
| `Fs.Fs.Put` | tools/mkfs.py:73-76 | overwrites exactly the given bytes of one block; the image keeps its length |
| `Fs.Fs.AllocBlock` | tools/mkfs.py:78-83 | the next block, or failure and no change when the image is full |
| `Fs.Fs.AllocInode` | tools/mkfs.py:86-93 | the next number, or failure; the test is `>=`, so the last inode number is never handed out |
| `Fs.Fs.StoreBlocks` | tools/mkfs.py:97-102 | data blocks are consecutive, each holding its 1024 bytes, all bytes from the next block on still zero |
| `Fs.Fs.StoreInner` | tools/mkfs.py:120-129 | the inner blocks of the double-indirect tree, or failure at the 257th, or at a full image if that comes first |
| `Fs.Fs.StoreRun` | tools/mkfs.py:104-132 | addresses and pointer blocks of all three levels, or the error the first shortage gives |
| `Fs.Fs.StoreData` | tools/mkfs.py:95-132 | the bytes hold the new file in one run, every earlier file unchanged, zeros from `next_block` on |
| `RunProgress.RunCoupled` | tools/mkfs.py:95-132 | a finished run joins the stored files, disturbs none of them, and leaves every byte past it zero |
| `Fs.Fs.PackInode` | tools/mkfs.py:134-142 | the 64 bytes of an inode, or failure when a field does not fit; what lies where in them is `OnDisk.InodeRoundTrip` and `Stamps.ImageIsStamped` |
| `Fs.Fs.WriteInodes` | tools/mkfs.py:144-149 | every slot of the i-list is its inode, times included, or zeros, bytes outside the i-list unchanged; it fails exactly when an inode of the table does not fit its record |
| `Fs.Fs.BFree` | tools/mkfs.py:165-172 | one push: a full cache is saved in the block being freed; slots past `nfree` keep stale numbers |
| `Fs.Fs.BuildFreeList` | tools/mkfs.py:160-177 | the cache and the chained blocks hold the stack 0, nblocks-1, ..., next_block; no byte below `next_block` changes |
| `Fs.Fs.PackLists` | tools/mkfs.py:180-188 | the two lists of the superblock and their counts, or failure at an inode number of more than 16 bits |
| `Fs.Fs.WriteSuperblock` | tools/mkfs.py:179-197 | the 512 bytes at 512, nothing else, or failure exactly when a number does not fit its field |
| `OnDisk.SplicesAre` | tools/mkfs.py:181-196 | packing the fields one over the other into 512 zeros gives each field its bytes and leaves zeros between |
| `Links.LinksNewDir` | tools/mkfs.py:213-219 | a new directory with `.`, `..` and its name in the parent keeps every link count equal to the number of entries naming the inode |
| `Links.LinksAppend` | tools/mkfs.py:258-259 | an appended entry with one more link keeps the same equality |
| `TreeInvariant.DeviceNotDir` | tools/mkfs.py:261 | whatever its permission bits, a special file's mode never passes for a directory's |
| `TreeSteps.NewDirOk` | tools/mkfs.py:213-219 | making a directory keeps the invariant: links, `.` and `..`, numbers, modes, tiling |
| `TreeSteps.GetDirOk` | tools/mkfs.py:208-219 | so does `getdir` with all the parents it creates on the way; it terminates on the length of the path |
| `TreeSteps.AddFileOk` | tools/mkfs.py:232-235 | so does storing a host file |
| `TreeSteps.AddDeviceOk` | tools/mkfs.py:261-265 | so does a special file |
| `TreeSteps.LinkEntryOk` | tools/mkfs.py:250-259 | so does a hard link, to the last entry of that name, directories included |
| `TreeSteps.SetModeOk` | tools/mkfs.py:245-247 | so does a `dir` line that changes a mode |
| `TreeRuns.AddVisitOk` | tools/mkfs.py:221-235 | a visited host directory keeps the invariant and everything made before it, and is in the tree with all its files, even when it has none |
| `TreeRuns.AddLineOk` | tools/mkfs.py:237-265 | the same for one spec line of any kind, which leaves its directory, and its device if it has one, in the tree |
| `TreeRuns.GrowOk` | tools/mkfs.py:200-265 | for every host walk and every spec, the grown tree keeps the invariant and holds every visited directory and every file and device given |
| `TreeFinish.StoreDirsOk` | tools/mkfs.py:268-270 | storing directories in order keeps modes, links and all files, and stores each as its own entries |
| `TreeFinish.BuildOk` | tools/mkfs.py:200-270 | for every input `build` accepts, the finished tree has the invariant, every directory stored as its entries, every visited directory, file and device present |
| `Mkfs.Builder.MakeRoot` | tools/mkfs.py:202-206 | inode 2, linked twice to itself |
| `Mkfs.Builder.GetDir` | tools/mkfs.py:208-219 | the recursion on dictionaries updated in place does what the step on values does, errors included |
| `Mkfs.Builder.AddFile` | tools/mkfs.py:232-235 | one host file: inode, content, entry; the mode is read off the image by `RoundTrip.FileIsFound` |
| `Mkfs.Builder.AddVisit` | tools/mkfs.py:225-235 | the loop over the files of a host directory |
| `Mkfs.Builder.FindLast` | tools/mkfs.py:252-255 | the loop keeps the last entry of the name |
| `Mkfs.Builder.LinkEntry` | tools/mkfs.py:250-259 | one more entry and one more link for the target, or failure when there is none |
| `Mkfs.Builder.AddDevice` | tools/mkfs.py:261-265 | one special file |
| `Mkfs.Builder.AddLine` | tools/mkfs.py:237-265 | one spec line |
| `Mkfs.Builder.MakeBlob` | tools/mkfs.py:269 | the records of a directory joined, or the first entry that cannot be packed |
| `Mkfs.Builder.StoreDirectories` | tools/mkfs.py:268-270 | the loop that turns directories into files |
| `Mkfs.Builder.Build` | tools/mkfs.py:200-274 | fails as the model of the tree does, or else succeeds exactly when every number fits its field, and then the bytes are the image of the tree |
| `Mkfs.Make` | tools/mkfs.py:291-304 | `main`, for every input: it writes an image if and only if the input is feasible and its fields fit, and otherwise fails as the tree does or as a field overflows; the finished file, `nblocks` blocks long with the disktab over its first bytes, is an image from which the reader gets back everything: the walk is the listing of the tree; the directories asked for, and no others, lie under their paths, the files, devices and links in the directories their paths name; every file the walk can reach is in it at its own path, with mode 0755 or 0644 and its content; the times of inodes and superblock are the one given, the boot block is zero past the disktab, the free list lies as `FreeBytes.FreeListIs` says, and the i-list is the shortest with an inode for every eight blocks and 512 at the least |
| `Mkfs.TableIsLeast` | tools/mkfs.py:291-294 | read off the superblock of a written image, the i-list has room for an inode for every eight blocks and for 512, and one block less would not |
| `Mkfs.WritableIsNarrow` | tools/mkfs.py:291-294 | what `main` can write ends below block 2^23, so the three bytes of an address are never too few for it |
| `Mkfs.EmptyTree` | tools/mkfs.py:291-295 | with no input, `build` succeeds exactly when there is a block for the root, and the image can be written exactly when the free inodes fit 16 bits, up to 65536 |
| `BuildOutcome.GetDirOutcome` | tools/mkfs.py:208-219 | `getdir` succeeds exactly when its path starts with a slash and the table has room for the directories missing on the way, and makes those |
| `BuildOutcome.SketchWhen` | tools/mkfs.py:208-265 | the names-only build goes through if and only if every path of the host walk and the spec starts with a slash and every link's target has a name by the time the link is made |
| `BuildOutcome.AddVisitOutcome` | tools/mkfs.py:221-235 | a host directory goes in exactly when its path, its files' sizes and the room for inodes and blocks allow it |
| `BuildOutcome.AddLineOutcome` | tools/mkfs.py:237-265 | a spec line goes through exactly when its path is rooted, a link's target is there and the table has room |
| `BuildOutcome.GrowOutcome` | tools/mkfs.py:200-265 | when the tree grows, exactly, and how many inodes and blocks it then has |
| `BuildOutcome.StoreDirsSucceeds` | tools/mkfs.py:267-270 | the directories can be stored exactly when every name, number and size fits and there is room for all of them |
| `BuildOutcome.BuildSucceedsWhen` | tools/mkfs.py:200-270 | for every input and size, `build` gets to writing the i-list if and only if paths and link targets make sense in order, directories, files and devices fit the table and 16 bits, no file or directory is too large, every name fits its record, and the blocks of files and directories together fit the image |
| `WriteOutcome.BuildAsPlanned` | tools/mkfs.py:200-265 | directories, entries and inode numbers of a finished build are those of a plan made from the input alone, without inodes or blocks |
| `WriteOutcome.ModesFitWhen` | tools/mkfs.py:140 | every inode's mode fits 16 bits if and only if the last mode given to each directory and the mode of every special file do; a mode that a later line replaces does not count |
| `WriteOutcome.LinksFitWhen` | tools/mkfs.py:140 | every link count fits its signed field if and only if no inode is named 2^15 times |
| `WriteOutcome.WritesWhen` | tools/mkfs.py:200-274 | for every input and size, the image is written if and only if the input is feasible and modes, names per inode, the i-list's extent and the free inodes fit their fields |
| `InodeKinds.BuildKinds` | tools/mkfs.py:200-270 | every inode of a finished build is a directory, a stored host file or the special file of a device line |
| `InodeKinds.LogIsTheRest` | tools/mkfs.py:261-270 | an inode has been given content by `store_data` if and only if it is not the special file of a device line |
| `OnDisk.InodeRoundTrip` | tools/s5fs.py:13-19 | `S5.inode` inverts `pack_inode` field for field, addresses up to their low 24 bits |
| `OnDisk.AddressWidth` | tools/mkfs.py:136-139 | an address survives if and only if it is below 2^24 |
| `OnDisk.DirentReads` | tools/mkfs.py:152-157 | a packed record reads back as its inode number and its name up to the first NUL |
| `Failures.DirentStops` | tools/mkfs.py:152-157 | a record can be packed if and only if the number has 16 bits, the name 14 characters and each of them 8 bits; the name is too long if and only if it is encodable and longer |
| `OnDisk.BlobReads` | tools/s5fs.py:45-50 | a directory's content reads back, from any record on, as its entries in order |
| `OnDisk.SuperReads` | tools/mkfs.py:179-197 | every field of the superblock reads back from the image |
| `Stamps.ImageIsStamped` | tools/mkfs.py:134-197 | what the reader never looks at: each inode handed out has the time in bytes 52, 56 and 60 and 0 in byte 51, every other slot is blank, the superblock has the time, magic, type and names, and zeros between its fields |
| `FreeList.LoadInvertsSave` | tools/mkfs.py:166-170 | what `bfree` saves in a block the kernel's reload brings back, count and all fifty slots |
| `FreeList.FreePushes` | tools/mkfs.py:165-172 | `bfree` of a block not on the list pushes it on the stack the cache and its chained blocks represent |
| `FreeList.AllocPops` | tools/mkfs.py:12-13 | the kernel's `alloc` pops that stack, reloading the cache when it runs out |
| `FreeList.AllocEmpty` | tools/mkfs.py:174 | the 0 freed first ends the walk: no space |
| `FreeList.AllocUndoesFree` | tools/mkfs.py:165-172 | `alloc` after `bfree` gives the block back and the live cache as it was |
| `FreeList.DrainGivesStack` | tools/mkfs.py:160-177 | draining returns the whole stack from the top, each block once, and stops |
| `FreeBytes.FreeListIs` | tools/mkfs.py:160-187 | the free list of every finished image, number for number: counted down from the last, every fiftieth free block holds 50 and the fifty numbers before it, and the superblock holds the one to fifty left over and how many they are |
| `Image.ImageAssembled` | tools/mkfs.py:272-274 | i-list, free list and superblock, written in that order, leave each other and every file intact |
| `Image.BootSectorIsFree` | tools/mkfs.py:297-300 | overwriting up to the first 512 bytes keeps the image |
| `Image.ImageExtends` | tools/rebuild-disk.sh:25-28 | an image followed by anything else is still that image |
| `Image.InodeReads` | tools/s5fs.py:13-19 | every allocated inode reads back from the finished image |
| `Image.FileReads` | tools/s5fs.py:28-40 | `S5.data` of every stored file on the finished image is its content |
| `Image.DirReads` | tools/s5fs.py:42-50 | `S5.readdir` of every directory on the finished image is its entries in order |
| `Image.WalkIsListing` | tools/s5fs.py:52-61 | from any directory and depth, the walk is the pre-order listing of `entries`, hard-linked directories included |
| `RoundTrip.WalkReturnsTree` | tools/s5fs.py:52-61 | `S5.walk` on the finished bytes is exactly the pre-order listing from the root: paths, inode numbers, inodes |
| `RoundTrip.FileIsFound` | tools/mkfs.py:226-235 | a host file is listed in its directory on the image; the mode read there is a regular file's with 0755 if and only if the file is executable and 0644 otherwise, and its data is its bytes |
| `RoundTrip.DeviceIsFound` | tools/mkfs.py:261-265 | a special file is listed with its mode and the low 24 bits of its device number |
| `RoundTrip.DeviceNumberFits` | tools/mkfs.py:263 | with a minor number of one byte the packed number is 256 * major + minor |
| `RoundTrip.InputIsFound` | tools/mkfs.py:200-274 | for every accepted input whose blocks have 24-bit numbers, every host file and every device line is found on the image |
| `RoundTrip.ModesFit` | tools/mkfs.py:247-261 | with up to twelve permission bits the mode of a `dir` line or a special file is its type plus those bits |
| `ModeBits.DeviceModeBits` | tools/mkfs.py:261 | a special file's mode has the bits of its line and bit 13, and bit 14 too if and only if it is a block device |
| `ModeBits.DirModeBits` | tools/mkfs.py:247 | a `dir` line's directory has the bits of the line and bit 14 |
| `ModeBits.DeviceNumberBits` | tools/mkfs.py:263 | a device number has the bits of the minor and, eight places up, those of the major |
| `TreeInput.AddFilesAdded` | tools/mkfs.py:226-235 | storing files adds one entry and one inode each and leaves every directory's mode alone |
| `TreeInput.GetDirAdded` | tools/mkfs.py:208-219 | `getdir` adds exactly the path and the directories above it; each takes one inode and three entries, and starts with mode 0755 |
| `TreeInput.AddLineAdded` | tools/mkfs.py:237-265 | a `dir` line sets its directory's mode and no other, a link adds one entry and no inode, naming the inode its target names, a device adds one of each |
| `TreeInput.LastMatchIs` | tools/mkfs.py:252-255 | the loop takes inode n if and only if the last entry of the name is for n, and nothing if and only if there is none |
| `Failures.LinkStops` | tools/mkfs.py:250-257 | `build` stops for a missing link target if and only if the target's directory is there and has no entry of its name |
| `TreeInput.LinkLineTakes` | tools/mkfs.py:249-259 | the link of a line is for the inode the last entry of its target's name had when the line was reached, and stays |
| `InputAccounts.BuildAccounts` | tools/mkfs.py:200-270 | for every accepted input, a directory is in the tree if and only if it is the root, visited, named by a `dir` line, added to by another line, or above one of these; inodes and entries number exactly what directories, files, devices and links account for; directory modes are those of their last `dir` line |
| `InputAccounts.DirModeOnImage` | tools/mkfs.py:245-247 | a directory's mode on the image has bit 14 and the bits of its last `dir` line, or is 0040755 when it has none |
| `InputAccounts.LinkIsFound` | tools/mkfs.py:250-259 | on the image a link and its target are two names for the inode the target's last entry had when the line was reached |
| `InputAccounts.DirsAreFound` | tools/mkfs.py:208-247 | exactly the directories asked for are on the image, each under its path, with the mode of its last `dir` line and the directory above as its `..` |
| `InputAccounts.OnlyDirsRead` | tools/s5fs.py:16-20 | no other inode of the image has a directory's mode |
| `InputAccounts.EntersIs` | tools/s5fs.py:54-60 | whether the walk enters a directory can be told from the spec: depth, names and the modes of `dir` lines |
| `InputAccounts.EntriesAreWalked` | tools/s5fs.py:54-60 | every entry of such a directory, as read, is in the walk under its path, with its inode as read |
| `InputAccounts.FilesAreWalked` | tools/s5fs.py:28-60 | so every host file in one is shown at its own path, with mode 0100755 or 0100644 as it is executable or not, and its data is the content |
| `InputAccounts.ImageReadsBack` | tools/mkfs.py:200-274 | an image of an accepted input with 24-bit block numbers reads back whole: walk, directories under their paths, files, devices, links, and nothing more |
| `InputAccounts.InodesOfInput` | tools/mkfs.py:179-192 | `s_tinode` plus inode 1, directories, files and devices is the size of the table |
| `BlockUse.BuildLog` | tools/mkfs.py:221-270 | what is stored is the host's files in the order visited and then the directories in the order made, and nothing else |
| `BlockUse.BlocksOfInput` | tools/mkfs.py:174-192 | `s_fsize` is `s_isize`, the blocks those contents take with their pointer blocks, and `s_tfree` |
| `RoundTrip.LinksOnImage` | tools/mkfs.py:206-259 | the link count stored in each inode is the number of directory entries, read from the image, that name it |
| `RoundTrip.DirsReached` | tools/mkfs.py:205-219 | every directory is found from inode 2 by following the names of its path through entries on the image; it begins with itself, and its `..` is the directory that the path names it in |
| `WalkComplete.WalkMissesNothing` | tools/s5fs.py:54-60 | every entry of every directory the walk enters is in the walk, under its path, with its inode |
| `WalkExact.WalkIsRoutes` | tools/s5fs.py:52-61 | on any bytes and from any directory, an item is in the walk if and only if a route leads to it: names read from the image, none `.` or `..`, all but the last for directories, no more than the depth limit allows |
| `WalkExact.WalkShowsExactly` | tools/s5fs.py:52-61 | from the root: routes of at most 13 names |
| `WalkOrder.WalkIsInOrder` | tools/s5fs.py:52-61 | every way down of at most 13 names, told by the positions of its entries, is in the walk once, in lexicographic order of positions: a directory before what is below it |
| `WalkComplete.WalkIsShallow` | tools/s5fs.py:59 | where names have no slash, the walk shows no name more than 12 directories below the root |
| `WalkComplete.WalkShowsWhen` | tools/s5fs.py:54-60 | where names tell the entries of a directory apart, the walk shows an entry at its path if and only if it enters the directory and the entry is not `.` or `..` |
| `WalkLimits.BuildSlashFree` | tools/mkfs.py:200-265 | spec lines bring no slash into a name |
| `WalkLimits.DeepIsLeftOut` | tools/s5fs.py:59 | for every accepted input whose host names have no slash, nothing more than 12 directories down is in the walk of its image |
| `WalkLimits.DeepBuilt` | tools/mkfs.py:208-219 | fourteen directories one below the other are an accepted input |
| `WalkLimits.DeepIsCut` | tools/s5fs.py:59 | on its image all of them are found under their paths, and the walk shows exactly the first thirteen |
| `WalkLimits.DirLineKeepsType` | tools/mkfs.py:245-247 | a `dir` line leaves a directory's type alone if and only if the type bits of its mode are none or a directory's |
| `WalkComplete.WalkShowsPath` | tools/s5fs.py:57 | the walk shows a path itself if and only if it starts at the root, names something there and has no NUL |
| `WideBlocks.NarrowReads` | tools/mkfs.py:134-142 | a file whose run ends by block 2^24 reads back, whatever it holds |
| `WideBlocks.RoundTripWidth` | tools/mkfs.py:136-139 | for every place and size, the round trip holds of all contents and all images if and only if the run, pointer blocks included, ends by block 2^24 |
| `WideImage.WideBuilt` | tools/mkfs.py:200-270 | an input that gets there, given 512 inodes: 254 files of the largest size build and every number fits |
| `WideImage.WideImageReadsEmpty` | tools/s5fs.py:52-61 | and on the image of that tree the walk finds nothing, though the tree lists its files |
| `Ownership.OwnsItsRun` | tools/mkfs.py:95-132 | read off the image, a file owns each block of its run exactly once, as data or as one of the three kinds of pointer block, and no other block |
| `Ownership.OwnedExactlyOnce` | tools/mkfs.py:60-132 | every block of `[first_data, next_block)` is owned exactly once, by one file; no other block is owned |
| `InodeKinds.OneOwner` | tools/mkfs.py:60-132 | on the image of any accepted input, a block has an owner among the inodes that are not special files if and only if it was allocated, and then just one, once |
| `Ownership.DrainsAscending` | tools/mkfs.py:174-177 | draining the list headed by the superblock hands out next_block, ..., nblocks-1 in order, then nothing |
| `Ownership.BlocksConserved` | tools/mkfs.py:60-192 | boot block and superblock, i-list, owned blocks and drained free list count each block below `s_fsize` once and no other; `s_tfree` is the length of the free list |
| `Ownership.InodesAccounted` | tools/mkfs.py:179-192 | `next_ino - 1 + s_tinode == ninodes`; the i-list ends where `s_isize` says; the cached free inodes are the first hundred not handed out, all empty |
| `DcuModel.LiveStable` | patch/sys16.cpp:553-659 | a chain that ends has one result, however many links one is ready to follow |
| `DcuBytes.DecodesLayout` | patch/sys16.cpp:561-578 | the engine takes an IOCB's fields from 28 bytes if and only if the bytes hold them: opcode at 0, count at 3, cylinder at 6, unit, head and sector packed in 8 and 9, table at 10, chain at 22, low byte first |
| `DcuBytes.LinkFromBytes` | patch/sys16.cpp:561-604 | and the pages from the words of the table |
| `DcuChain.MoveLiveIsList` | patch/sys16.cpp:599-635 | the sector loop, fetching page addresses as it goes, does what a fold over the table read beforehand does, if no sector read lands in the table |
| `DcuChain.SameLink` | patch/sys16.cpp:561-578 | an IOCB and table nobody wrote to decode the same |
| `DcuChain.LiveRefinesChain` | patch/sys16.cpp:553-659 | for every finite chain whose IOCBs, tables and pages do not overlap, the engine ends and equals the fold over the links decoded beforehand, in memory, drives, geometry and result |
| `DcuChain.SelfChainNeverEnds` | patch/sys16.cpp:648-653 | there is no cycle guard: an empty IOCB chained to itself never ends, wherever it lies |
| `DcuEnding.LinkExact` | patch/sys16.cpp:580-655 | a link is carried out in full exactly when its sectors can be reached, and changes neither geometry nor which sectors can be |
| `DcuEnding.EndsExactly` | patch/sys16.cpp:553-659 | for IOCBs that do not overlap, chain or loop, the engine ends within n links if and only if the chain read before anything moves comes in n links to one that cannot be carried out or goes no further |
| `DcuEnding.EndsIffFinite` | patch/sys16.cpp:648-655 | where every sector can be reached, the engine ends if and only if the chain is finite |
| `DcuEnding.LoopNeverEnds` | patch/sys16.cpp:648-653 | a chain that returns to an earlier link is followed for ever, if none of its sectors is out of reach |
| `DcuEffects.ListReaches` | patch/sys16.cpp:617-627 | exactly the sectors up to the first the drive refuses are moved |
| `DcuEffects.ListWrites` | patch/sys16.cpp:606-622 | a writing list puts page i in sector lba + i (zeros for FORMAT), touches no other sector, no memory |
| `DcuEffects.ListReads` | patch/sys16.cpp:623-632 | a reading list fills page i from sector lba + i and touches no drive |
| `DcuEffects.LinksApart` | patch/sys16.cpp:553-659 | memory no link is meant to write is the same after the chain |
| `DcuEffects.ChainReports` | patch/sys16.cpp:638-655 | links before the last executed show 0x40, that one 0x80 or 0x08 as the chain succeeded or failed, residue plus sectors moved is the count, and a link after a failure is untouched |
| `DcuRoundTrip.LinkWrites` | patch/sys16.cpp:588-638 | a WRITE or FORMAT whose sectors can be reached: its whole effect |
| `DcuRoundTrip.LinkReads` | patch/sys16.cpp:588-638 | a read whose sectors can be reached: its pages hold the sectors |
| `DcuRoundTrip.WriteThenRead` | patch/sys16.cpp:588-638 | writing a run of sectors and reading it back restores the gathered pages in order; no other sector nor the other drive changes |
| `DcuRoundTrip.WriteThenReadFrame` | patch/sys16.cpp:638-655 | and memory outside the pages read is unchanged but for the two IOCBs' residue and status |
| `DcuBytes.WriteThenReadBytes` | patch/sys16.cpp:553-659 | from bytes to bytes: a WRITE (0xe6) laid down at one address and a read chained to it leave the 512 bytes of each page of the first table in the page of the second, status 0x40 and 0x80 and no residue |
| `DcuBytes.WriteBytes` | patch/sys16.cpp:606-615 | an IOCB with opcode 0xe6: its pages are the sectors, in order, and no other sector changes |
| `DcuBytes.FormatBytes` | patch/sys16.cpp:606-615 | with 0xbc: the sectors are zeros, whatever the pages |
| `DcuBytes.ReadBytes` | patch/sys16.cpp:623-632 | with any other opcode: each page holds the sector whose turn it is, and no drive changes |
| `DcuGeometry.SplitFlat` | patch/sys16.cpp:591-592 | two positions of a drive never share a sector number |
| `DcuGeometry.FlatSplit` | patch/sys16.cpp:591-592 | every sector number is some position |
| `DcuGeometry.OntoUnit` | patch/sys16.cpp:591-592 | a position lies within the cylinders if and only if its number is below cylinders * heads * sectors |
| `DcuGeometry.IncrementCarries` | patch/sys16.cpp:599 | `lba++` moves to the next sector, the next track or the next cylinder |
| `DcuGeometry.NoWrap` | patch/sys16.cpp:576-599 | no step of the computation or the loop leaves 32 bits |
| `DcuGeometry.DecodeWidths` | patch/sys16.cpp:561-578 | decoded fields stay within the widths that bound needs |
| `DcuGeometry.FreshAdmissible` | patch/sys16.cpp:415-441 | whatever sector 0 holds, the geometry is 1 to 255 sectors and 1 to 31 heads |
| `DcuGeometry.FreshFromBytes` | patch/sys16.cpp:415-441 | from the bytes of sector 0: with the header's magic number and plausible counts, sectors from byte 8 and heads from byte 10; in all other cases, an unreadable sector included, 24 and 3 |
| `DcuMachine.StepSafe` | patch/sys16.cpp:471-551 | every register write, completion, reset and memory write keeps the safety invariant |
| `DcuMachine.AlwaysSafe` | patch/sys16.cpp:272-551 | in every run: BUSY only with the timer armed, DONE or ERROR only with the line low, IDLE only with it high, auxiliary error only with the timer not armed and code ERROR or IDLE; edges never exceed completions, completions plus the pending one never exceed opcodes |
| `DcuMachine.ResetLeavesTimer` | patch/sys16.cpp:272-288 | a reset does not disarm the timer: a stray completion with error and interrupt follows exactly when the timer was armed |
| `DcuMachine.EdgesAreCompletions` | patch/sys16.cpp:495-512 | falling edges equal completions if and only if between any two completions there is an acknowledgement or a reset |
| `DcuMachine.DisciplineAcknowledges` | patch/sys16.cpp:481-498 | a driver that writes an opcode only in IDLE with none outstanding meets that condition |
| `DcuMachine.NoLostInterrupt` | patch/sys16.cpp:481-512 | so in its runs no interrupt is lost |
| `DcuMachine.ResultStands` | patch/sys16.cpp:443-512 | the status register shows the command's own result until it is acknowledged, the line stays low |
| `DcuCommands.Issued` | patch/sys16.cpp:475-489 | writing three argument bytes and an opcode leaves the controller busy with its timer armed, and nothing done yet |
| `DcuCommands.StartRunsChain` | patch/sys16.cpp:514-544 | 0x18 written after the low, middle and high byte of an address: the completion can come if and only if the chain at that address ends, and memory, drives and result are then the chain's |
| `DcuCommands.AssignsUnit` | patch/sys16.cpp:532-536 | 0x20 with 8192 u + k, k < 8192: the unit is then u, it ends in DONE if and only if that unit is there, and then its geometry is known; nothing else changes |
| `DcuCommands.SpecificAsks` | patch/sys16.cpp:538-541 | 0xe8 ends in DONE if and only if the selected unit is there, and changes nothing |
| `DcuCommands.OthersAccepted` | patch/sys16.cpp:520-530 | 0x16, 0x2e, 0x42, 0x74 and 0x84 end in DONE whatever their argument; the first ends the self test, and nothing else changes |
| `DcuCommands.UnknownRefused` | patch/sys16.cpp:546-550 | any other opcode ends in ERROR with the auxiliary error shown in the status, 0x97 |
| `DcuCommands.Acknowledges` | patch/sys16.cpp:443-502 | a write to register 4 shows 0x8f and raises the line, one to register 8 clears the error bit, other registers from 5 on do nothing, and only register 4 reads as anything |
| `DcuCommands.ResetIdles` | patch/sys16.cpp:272-288 | after a reset the status is 0x8f, argument, unit and geometry are 0, memory and drives as before |
| `DcuCoherence.LiveCoherent` | patch/sys16.cpp:588-632 | a transfer keeps the cached geometry true of sector 0, or marks it when a sector 0 was written |
| `DcuCoherence.AlwaysCoherent` | patch/sys16.cpp:415-441 | in every run each unit's geometry is empty or admissible, and a fresh parse of sector 0 unless LBA 0 was written since |
| `DcuCoherence.CachedUntilReset` | patch/sys16.cpp:415-418 | once filled it does not change until a reset |
| `Dcu.Dcu.FillGeometry` | patch/sys16.cpp:415-441 | `dcu_geometry` on the cached fields |
| `Dcu.Dcu.ReadIocb` | patch/sys16.cpp:561-578 | the fields of an IOCB, loaded from memory one by one; where they lie is `DcuBytes.DecodesLayout` |
| `Dcu.Dcu.MoveSector` | patch/sys16.cpp:606-632 | one sector, in either direction, or no change when the drive fails |
| `Dcu.Dcu.Transfer` | patch/sys16.cpp:580-635 | the sector loop and its residue |
| `Dcu.Dcu.RunChain` | patch/sys16.cpp:553-659 | `dcu_transfer` over a chain that ends, memory and drives updated in place; on bytes, `DcuBytes.WriteThenReadBytes` |
| `Dcu.Dcu.ReadRegister` | patch/sys16.cpp:443-469 | the status byte |
| `Dcu.Dcu.WriteRegister` | patch/sys16.cpp:471-502 | argument bytes, opcode, acknowledgements |
| `Dcu.Dcu.ResetMachine` | patch/sys16.cpp:272-288 | the controller's part of a reset |
| `Dcu.Dcu.ExecuteCommand` | patch/sys16.cpp:514-551 | every opcode, in place; what each does with its argument is in `DcuCommands` |
| `Dcu.Dcu.TimerFires` | patch/sys16.cpp:504-512 | a completion: result code and falling edge |
| `MkDisk.PartitionsTile` | tools/mkdisk.py:44-64 | for every positive shape root and swap follow one another and fill the unit, partitions 2 and 3 repeat them, 4 is the whole unit and 5 to 7 are empty; swap is the fewest cylinders, from 46 on, that hold 5040 sectors and one cylinder more; the root's size is not negative exactly when the unit has the cylinders |
| `MkDisk.RootBlocksFit` | tools/mkdisk.py:77-79 | the blocks fit the root partition and one more would not |
| `MkDisk.RootBlockCylinders` | tools/mkdisk.py:77-79 | both sectors of every root block lie on cylinders below the swap partition |
| `MkDisk.Disktab` | tools/mkdisk.py:67-74 | the loop gives the 92-byte header, or failure when a number does not fit its field |
| `MkDisk.HeadReads` | tools/mkdisk.py:67-69 | every field of the fixed part reads back |
| `MkDisk.PartReads` | tools/mkdisk.py:70-71 | every partition reads back |
| `MkDisk.NameReads` | tools/mkdisk.py:72 | the last eight bytes are the name cut to eight, with zeros after a shorter one |
| `MkDisk.HeaderIsParsed` | patch/sys16.cpp:427-440 | the controller reads the shape off the header if and only if the track has under 256 sectors and the cylinder under 32 tracks; otherwise it uses 24 and 3 |
| `MkDisk.UsableWhen` | tools/mkdisk.py:44-74 | exactly which roomy shapes have a header and are seen as they are |
| `MkDisk.DrivesUsable` | tools/mkdisk.py:32-39 | all six drives of the table |
| `EndToEnd.OverlayKeepsSwap` | tools/rebuild-disk.sh:25-28 | laying the filesystem over the pack neither grows it nor touches the swap partition |
| `EndToEnd.DiskGeometry` | patch/sys16.cpp:415-441 | the controller takes the drive's own shape from the rebuilt disk |
| `EndToEnd.BlockIsTwoSectors` | tools/s5fs.py:21-22 | for every block below `root_blocks` but 0, sectors 2b and 2b + 1 of the disk are `S5.blk(b)` |
| `EndToEnd.BlockAddressFits` | patch/sys16.cpp:576-578 | and their cylinder, head and sector fit the IOCB's fields |
| `EndToEnd.BlockThroughController` | patch/sys16.cpp:590-636 | 28 bytes that ask for those two sectors and a table of two pages, run by the engine on a coherent controller, bring `S5.blk(b)` into the two pages |
| `Rebuild.DiskIsImage` | tools/rebuild-disk.sh:22-30 | the whole disk still begins with the filesystem image |
| `Rebuild.DiskWalks` | tools/rebuild-disk.sh:22-30 | walking the whole disk returns the tree |
| `Rebuild.RebuildDisk` | tools/rebuild-disk.sh:17-30 | header, filesystem and overlay together: a disk exactly when the input is feasible and its fields fit, and then at once a drive the controller sees as it is and an image on which the reader finds the whole input under its paths and nothing more, with the time stamped where it belongs |
| `Coff.ReadTable` | tools/coff2genix.py:36-40 | the loop over the section headers, or failure at a truncated one or at a name that is not UTF-8 |
| `Coff.TableSucceedsWhen` | tools/coff2genix.py:36-40 | the table is read if and only if every header lies within the file and every name is UTF-8 |
| `Utf8Names.Utf8When` | tools/coff2genix.py:40 | a name can be decoded if and only if it is the UTF-8 encoding of some sequence of characters, surrogates not among them |
| `Coff.ConvertSucceedsWhen` | tools/coff2genix.py:20-72 | a file is converted if and only if its bytes are acceptable: magic 0x154, 40 bytes of optional header with 0413, legible section headers, a last one each for .text, .data and .bss whose fields fit, data past the text |
| `Coff.HeaderIs` | tools/coff2genix.py:53-71 | every word of the exec header, from the bytes of the file: 0413, data address less text address, the sizes of the last .data and .bss, the entry at 44, 0x20, both addresses, 0 elsewhere |
| `Coff.LastSectionCounts` | tools/coff2genix.py:36-40 | a section is what the last header of its name says, names stripped of trailing NULs |
| `Coff.ConvertFile` | tools/coff2genix.py:20-72 | there is an output if and only if the file is acceptable, with its header word for word as above, or else the error of the first check that fails; loaded as the ROM loads them, an accepted kernel is placed where it was linked |
| `Failures.ConvertStops` | tools/coff2genix.py:25-51 | with which of its four messages the conversion stops, exactly, from the bytes |
| `Coff.Loaded` | tools/coff2genix.py:46-49 | loading an output puts its text at the text address and the data straight after: exactly these addresses, exactly these bytes |
| `Coff.KernelPlaced` | tools/coff2genix.py:46-72 | every text and data byte of an accepted kernel is loaded at its linked address, zeros in the gap, nothing elsewhere |
| `Coff.RoundingPlaces` | docs/STATUS.md:67-78 | rounding the text to 512 instead loads the same memory if and only if that rounding is `data_paddr - text_paddr` |

## Left out

- Mkfs.Make: does not model images of 2^32 blocks or more, nor timestamps beyond 32 bits, which `struct.pack` refuses; so too
  `Fs.Fs.constructor`.
- RoundTrip.WalkReturnsTree: asks for block numbers below 2^24, as do the other round trips that are about any `Fs`; `main`
  always meets that, and `WideBlocks.RoundTripWidth` is the exact limit where it does not hold.
- DcuChain.LiveRefinesChain: asks for IOCBs, tables and the pages of reads that lie in RAM and do not overlap, and for a chain
  that ends; when it ends is `DcuEnding.EndsExactly`, and what the engine does on any other memory is `DcuModel.Live`.
- DcuMachine.AlwaysSafe: a run in which a timer starts a chain that never ends is not a run of the model.
- Inodes are values in a map, so two Python names for one `Inode` object are not captured; the code relies on none.
- Reading a spec file: comments, splitting, `int()` and its errors; `os.walk`, sorting, symbolic links, permissions.
- BuildOutcome.BuildSucceedsWhen: does not model Python's recursion limit, which `getdir` runs into on a path with about a
  thousand directories missing on the way.
- WalkComplete.WalkShowsWhen: is about trees whose names tell the entries of a directory apart; for all others, and for any
  bytes, what the walk shows is `WalkExact.WalkIsRoutes`.
- Which exception Python raises on a malformed path: all are `BadPath`.
- User and group ids: `mkfs.py` always writes 0.
- `S5.__init__` reading `isize` and `fsize`, and the printing around `walk`: they do not affect what is read.
- `mkdisk.py` in its `main` adds only file handling to `MkDisk.Pack`.
- Memory-mapped registers as DMA targets.
- Device timing, logging, the emulator's save states and the other boards of `patch/sys16.cpp`.
- `tools/s5extract.py`, `tools/nm32.py`, `tools/trace.py`, `pack/` and the older revisions of the patch: input and output around
  the modelled code, or code that would add only easy members.
