# Rusty OS: verified models

Dafny models of the parts of the Rusty OS kernel that carry invariants, with proofs about every input,
every run or every reachable state. `dafny verify dfyconfig.toml` checks the whole project.

## What is modelled

**FAT32 driver** (`Common`, `Arithmetic`, `Bytes`, `BlockDevice`, `FatLayout`, `FatChain`, `FatContent`, `FatAlloc`,
`Directory`, `Names`, `FatFiles`, `Fat32`, `FatNumbers`, `FatTheorems`, `FatRoundTrip`, `FatRuns`, `FatSession`). A disk
is a sparse image of 512-byte sectors. The byte level implements an allocation table, the table implements chains,
chains implement files and directories. The class `Fat32.Volume` holds the driver's operations as loops over a `Device`
whose sectors they read and overwrite; each is proved against what it means on disk images. `FatFiles.Created` is what
one call of `create_file` does, whatever it returns: the entry and sector writes of the data loop one after the other
(`FatAlloc.AfterStoring`), then one directory record. `FatTheorems` derives from it what other files, the listing and
the FAT copies see, `FatNumbers` says in sector numbers, byte positions and byte values where each structure lies on the
disk and what is read from it, `FatRoundTrip` when the new file comes back, `FatRuns` what every file keeps over any run
of calls, and `FatSession` runs the operations one after the other.

- Integer overflow follows Rust's checked arithmetic: the operation panics (`Panic`). A cluster below 2 therefore
  panics in `cluster_to_sector`.
- Sector writes succeed, as `SectorWrite` only ever returns `Ok`; no other task writes the disk during an operation.
- `BootSector.Geometry` is a volume with at least one FAT, one sector per FAT and one sector per cluster, every FAT
  entry standing for a data cluster addressable with 32 bits, and cluster numbers below the end-of-chain mark
  (`find_free_cluster` takes the table size from `sectors_per_fat_32` alone). `ChainAt` is a chain of data clusters of the
  volume, of any length; `SoundChain` one of at most 10000 clusters, which the driver can follow.
- Names are the UTF-8 bytes of the name. A displayed name is a sequence of characters below U+0100, one for each byte of
  the record that is not blank; `Names.Utf8` turns it into bytes, so that the two can be compared as strings.

**Heap allocators** (`Alignment`, `LinkedList`, `Bump`, `FixedSizeBlock`). Memory is a map from addresses to 8-byte
words. The linked-list and fixed-size-block classes keep their list nodes in that memory, inside the free blocks, and are
proved to refine heaps made of disjoint blocks; theorems then range over all sequences of operations. Heaps lie in the
lower half of the address space, as `HEAP_START` and `HEAP_SIZE` do. The fallback of the fixed-size-block heap is
represented by its answers, which are aligned and apart from everything it still owns (`FallbackGives`).

**Async runtime** (`Runtime`, `SimpleExecutor`). `Runtime` is a transition system: each pop, register, take, disable and
halt is one step, and an interrupt can come between any two steps while interrupts are enabled. The waker cell and the
queues are atomic. Other tasks and other interrupts do anything their interface allows.

**ATA reads** (`Ata`). One read at a time, one interrupt per command; task steps and the handler interleave freely.
`DISK_WAKER` is taken to be initialised, which `AtaDriver::init` does: before that `poll` registers no waker
(src/ata.rs:111) and the handler wakes no one (src/ata.rs:429).

**Screen and frames** (`Vga`, `Frames`). The scrolling buffer against an endless log of rows; the boot frame allocator
against the list of usable frames.

## Results that are not what one might expect

- A file created on a volume with several sectors per cluster keeps the old bytes of every sector but the first of each
  cluster. `RoundTripIff` and `RoundTripSafeIff` say exactly when the data comes back; `CreateAndLose` is a session in
  which `create_file` succeeds and the data is nowhere to be read.
- A new empty file cannot be read, nor one of more than 10000 clusters; every other new file can (`ReadableIff`).
  `CreateTooLong` is a session in which `create_file` succeeds on such a file.
- A directory number that leads nowhere is not noticed until the clusters of the file have been taken; the table and the
  other files are as safe as on any other error (`CreateTable`, `ErrorResidue`, `NonInterference`).
- A name that starts with byte 0xE5 or 0 is stored but not listed (`CreateListing` with `NewRecordLead`).
- A name in ASCII is shown as it was given exactly when it is a short name, BASE.EXT of at most 8 and 3 bytes without
  blanks (`AsciiRecovered`). "é.TXT" is short and is shown as "Ã©.TXT" (`AccentLost`), because each byte is shown as a
  character. A part that is too long can even be shown as it is, if its first 8 or 3 bytes, each made a character, spell
  the whole part (`CutNameKept`). `NameRecovered` is the exact condition for all names.
- An ATA read of a sector number above 28 bits reads another sector (`WrongSectorBeyondLimit`).
- The linked-list heap never merges regions, so requests that once became too large fail forever (`FailsForever`).

## Model

| member | source | states |
|---|---|---|
| `FatLayout.EntryInPatchedSector` | src/fs/fat32.rs:287-292 | overwriting four bytes of a FAT sector changes the entry of one cluster and no other entry of that sector |
| `FatLayout.StoreEntryRefines` | src/fs/fat32.rs:277-304 | storing an entry through bytes, sector and backup copy is a one-slot table update; no sector outside the FATs changes; mirrored copies stay mirrored |
| `FatLayout.InRangeFits` | src/fs/fat32.rs:57-67 | every cluster of the volume lies behind the FAT copies, where `FatNumbers.Tiling` places it, and its sectors are addressable without overflow |
| `FatLayout.ClustersDisjoint` | src/fs/fat32.rs:65-67 | two sectors of clusters coincide only if cluster and offset do |
| `FatNumbers.Tiling` | src/fs/fat32.rs:57-67 | every sector behind the reserved ones is sector j of FAT copy i, at reserved + i * sectors_per_fat + j, or sector j of cluster c, at reserved + fats * sectors_per_fat + (c - 2) * sectors_per_cluster + j |
| `FatNumbers.CopiesDisjoint` | src/fs/fat32.rs:57-59 | no sector belongs to two FAT copies or to two places of one |
| `FatNumbers.FatsBeforeClusters` | src/fs/fat32.rs:57-67 | every sector of a FAT copy comes before every sector of a cluster |
| `FatNumbers.EntryIsWord` | src/fs/fat32.rs:129-140 | the entry of cluster c is the little-endian word of four bytes at offset 4 * (c % 128) of sector reserved + c / 128 |
| `FatNumbers.EntryWrites` | src/fs/fat32.rs:277-304 | every byte of the disk after an entry is stored: four little-endian bytes in the first copy, the same sector in the second, all others as before |
| `FatChain.ChainOfIff` | src/fs/fat32.rs:115-151 | following a chain succeeds with `p` if and only if `p` is the successor path to an end mark and has at most 10000 clusters |
| `FatNumbers.ChainInBytes` | src/fs/fat32.rs:115-151 | the same in the bytes of the table: 1 to 10000 clusters, each word leads to the next cluster and the last is at least 0x0FFFFFF8 |
| `FatChain.ChainNoDuplicates` | src/fs/fat32.rs:115-151 | no chain repeats a cluster |
| `FatChain.CycleIsRejected` | src/fs/fat32.rs:119-124 | a path that returns to one of its clusters gives the error |
| `FatChain.ChainFrame` | src/fs/fat32.rs:129-147 | a chain of any length, and what following it returns, depend only on the entries of its own clusters |
| `FatChain.SoundIff` | src/fs/fat32.rs:115-151 | a chain is sound and made of the clusters `p` if and only if `p` is a chain of data clusters and at most 10000 long |
| `FatContent.ContentAt` | src/fs/fat32.rs:157-164 | byte `r` of cluster number `q` of a file, located on disk |
| `FatNumbers.ContentInSectors` | src/fs/fat32.rs:157-164 | byte 512 * (q * sectors_per_cluster + j) + o of a chain is byte o of sector j of its cluster number q, by sector number |
| `FatNumbers.Placed` | src/fs/fat32.rs:157-164 | every position of a file has such a cluster, sector and offset, so these laws cover all bytes |
| `FatNumbers.FileLength` | src/fs/fat32.rs:153-168 | `read_file` succeeds if and only if every cluster of the chain is at least 2 and addressable with 32 bits, and returns the lesser of the file size and the bytes of the chain |
| `FatNumbers.FileInSectors` | src/fs/fat32.rs:153-168 | the sector and offset that each byte returned by `read_file` comes from |
| `FatContent.ContentFrame` | src/fs/fat32.rs:157-164 | a file's bytes depend only on the sectors its clusters occupy |
| `FatAlloc.ExtendLowest` | src/fs/fat32.rs:231-257 | appending the next free cluster keeps the list the lowest-numbered free clusters in increasing order |
| `FatAlloc.ExtendLinked` | src/fs/fat32.rs:259-275 | linking behind the last cluster and marking the end extends the one new chain and changes nothing else |
| `FatAlloc.FreeCount` | src/fs/fat32.rs:256 | allocation takes no more clusters than are free, and stops for lack of them only when all are taken |
| `FatNumbers.FirstFreeInBytes` | src/fs/fat32.rs:231-257 | the cluster found is the lowest from 2 to 128 * sectors_per_fat - 1 whose word is zero |
| `FatAlloc.LinkFreeRefines` | src/fs/fat32.rs:259-275 | one or two entry updates through bytes and both copies link the cluster, change no other entry and keep mirrored copies mirrored |
| `FatAlloc.ExtendLaidOut` | src/fs/fat32.rs:315-331 | one round of the data loop, as entry updates and a sector write, keeps the description of the stored part of the file |
| `FatAlloc.StoringLaysOut` | src/fs/fat32.rs:315-331 | all rounds together leave exactly one new chain of the lowest free clusters, filled with the data, and change nothing else |
| `FatNumbers.SectorsFilled` | src/fs/fat32.rs:315-331 | the first sector of each new cluster holds the data from 512 * i * sectors_per_cluster on, and zeros behind its end |
| `FatAlloc.StoringMirrors` | src/fs/fat32.rs:297-331 | all rounds together keep mirrored FAT copies mirrored |
| `Directory.ListingInsert` | src/fs/fat32.rs:186-222 | replacing the first unused record by a used one inserts its entry at that position of the listing; an unused one changes nothing |
| `FatNumbers.RecordListed` | src/fs/fat32.rs:186-222 | any 32 bytes within a directory contribute one entry if the first is neither 0x00 nor 0xE5, with name, attributes, cluster and size at their offsets, and nothing otherwise |
| `FatNumbers.ListedIff` | src/fs/fat32.rs:186-222 | an entry is in the listing of a directory if and only if some record in use of its bytes holds it |
| `FatNumbers.DirectoryInRecords` | src/fs/fat32.rs:174-227 | the same of the sectors of the directory on the disk; listing succeeds if and only if all its clusters are at least 2 and addressable |
| `FatNumbers.StoredInRecord` | src/fs/fat32.rs:385-418 | the record goes to the first 32 bytes that start with 0x00 or 0xE5, and no other byte of the directory changes |
| `Directory.NewRecordParses` | src/fs/fat32.rs:342-383 | parsing a new record recovers the cluster number, the size and the padded name |
| `Directory.NewRecordBytes` | src/fs/fat32.rs:342-383 | each of the 32 bytes of a new record: the two name fields padded with 0x20, attribute 0x20, both halves of the cluster number and the size in little-endian order, 0 elsewhere |
| `Directory.NameParts` | src/fs/fat32.rs:346-348 | the base is what stands before the first dot, the extension what stands between it and the next dot or the end |
| `Directory.NewRecordLead` | src/fs/fat32.rs:346-356 | a new record counts as unused if and only if the name starts with byte 0 or 0xE5 |
| `Directory.CreateDirEntry` | src/fs/fat32.rs:342-383 | the buffer filled field by field is the record of the new file |
| `Directory.GetName` | src/fs/fat32.rs:87-102 | the characters of the displayed name are the base without blanks, a dot, and the extension without blanks |
| `Directory.ShownBytes` | src/fs/fat32.rs:90-99 | of each field all bytes but 0x20 and 0x00 are shown, in order |
| `Names.EncodedDecodes` | src/fs/fat32.rs:90-99 | a shown byte becomes one byte below 0x80, else the two-byte UTF-8 form that decodes to it |
| `Names.NameRecovered` | src/fs/fat32.rs:87-102 | a new file is displayed under its name, compared as UTF-8 strings, if and only if the name has one dot and each part has no blanks and is either ASCII and fits its field, or is cut to bytes that encode the whole part |
| `Names.AsciiRecovered` | src/fs/fat32.rs:87-102 | a name in ASCII is displayed as given if and only if it is BASE.EXT with one dot, at most 8 and 3 bytes, no spaces or NULs |
| `Names.FittingRecovered` | src/fs/fat32.rs:87-102 | a name whose parts fit 8 and 3 bytes is displayed as given if and only if it is a short name and in ASCII |
| `Names.EncodesItself` | src/fs/fat32.rs:90-94 | the byte strings that are the UTF-8 encoding of their own first n bytes read as characters: ASCII ones of at most n bytes, and ASCII followed by one determined string |
| `Names.AccentLost` | src/fs/fat32.rs:90-94 | "é.TXT" is a short name and is not displayed as given |
| `Names.CutNameKept` | src/fs/fat32.rs:96-99 | a name with a six-byte extension that is displayed as given |
| `Fat32.Volume.FollowClusterChain` | src/fs/fat32.rs:115-151 | returns the chain, or the error if there is none of at most 10000 clusters |
| `Fat32.Volume.ReadFile` | src/fs/fat32.rs:153-168 | returns the bytes of the chain cut to the file size, which `FatNumbers.FileInSectors` locates on the disk; panics if a cluster cannot be located |
| `Fat32.Volume.ListDirectory` | src/fs/fat32.rs:174-227 | returns the entries of the used records of the directory's bytes, in order, which `FatNumbers.DirectoryInRecords` finds in its sectors |
| `Fat32.Volume.FindFreeCluster` | src/fs/fat32.rs:231-257 | returns the lowest-numbered free cluster, fails if and only if none is free, and can panic only if the FAT exceeds 2^23 sectors |
| `Fat32.Volume.SetFatEntry` | src/fs/fat32.rs:277-304 | on a well-formed volume one table entry changes, data sectors do not and copies stay mirrored |
| `Fat32.Volume.AllocateCluster` | src/fs/fat32.rs:259-275 | takes the lowest free cluster and makes exactly the one or two entry updates that link it between its neighbours; no other entry changes; on failure nothing is written |
| `Fat32.Volume.WriteDirEntry` | src/fs/fat32.rs:385-418 | stores the record in the first unused slot, as `FatNumbers.StoredInRecord` locates it, by changing one sector of the directory; an error or panic writes nothing |
| `Fat32.Volume.StoreData` | src/fs/fat32.rs:315-331 | the disk is that of the data loop's writes on the lowest free clusters: one chain, one chunk per cluster; fails only when all clusters are taken |
| `Fat32.Volume.CreateFile` | src/fs/fat32.rs:306-340 | every outcome is one of those `FatFiles.Created` describes: name too long, clusters exhausted, directory full, or stored and listed |
| `FatTheorems.NonInterference` | src/fs/fat32.rs:306-340 | whatever is returned and whatever directory number is given, every chain of data clusters, however long, keeps its clusters and none of them is taken; it lists and reads the same unless the directory, followed once the data is stored, leads into it |
| `FatTheorems.StaysAway` | src/fs/fat32.rs:306-340 | the same condition before the call: if no path from the directory number leaves the table or meets the chain, storing the data does not lead the directory into it, even if the directory is cyclic or runs through free clusters |
| `FatTheorems.CreateSucceedsIff` | src/fs/fat32.rs:306-340 | which of the three errors occurs, or success, decided by name length, number of free clusters and room in the directory before the call; a name of more than 12 bytes writes nothing |
| `FatTheorems.DirectoryInsert` | src/fs/fat32.rs:385-418 | after a successful write the listing is the old one with the new entry at exactly one position |
| `FatTheorems.CreateListing` | src/fs/fat32.rs:333-340 | after success the listing gains exactly the new entry; after an error it is unchanged |
| `FatTheorems.CreateTable` | src/fs/fat32.rs:259-340 | for every directory number the table gains exactly one chain of the n lowest free clusters, or of all of them if fewer are free, no other entry changes, and mirrored copies stay mirrored |
| `FatTheorems.MirrorOverRuns` | src/fs/fat32.rs:259-340 | the two FAT copies stay equal over every run of entry updates, allocations and file creations in any directories, derived from the sector writes of each |
| `FatRoundTrip.CreateThenRead` | src/fs/fat32.rs:153-340 | after success on non-empty data of at most 10000 clusters the entry is listed and reading it returns the data, except old bytes outside each cluster's first sector |
| `FatRoundTrip.RoundTripIff` | src/fs/fat32.rs:153-340 | after every successful creation, reading the new entry returns the data if and only if it is not empty, takes at most 10000 clusters, and every byte outside the first sectors of the clusters taken was on the disk before the call |
| `FatRoundTrip.RoundTripExact` | src/fs/fat32.rs:153-340 | a readable file comes back whole if clusters have one sector or the data is at most 512 bytes |
| `FatRoundTrip.RoundTripLoses` | src/fs/fat32.rs:306-340 | in all other cases the same call also succeeds on a disk that differs in one sector of a free cluster, and there reading does not return the data |
| `FatRoundTrip.RoundTripSafeIff` | src/fs/fat32.rs:153-340 | the same call gives its data back on every disk with the same free clusters if and only if the file is readable and clusters have one sector or the data is at most 512 bytes |
| `FatTheorems.ErrorResidue` | src/fs/fat32.rs:306-340 | after an error or panic, for every directory number, every sector outside the FATs and the first sectors of the clusters taken is unchanged |
| `FatSession.CreateAndReadAll` | src/fs/fat32.rs:153-340 | creating, listing and reading every entry through the driver yields the data among the results, under conditions known before the call |
| `FatSession.FreshVolumeIsReady` | src/fs/fat32.rs:306-340 | a freshly formatted volume with mirrored FATs meets those conditions |
| `FatSession.CreateAndLose` | src/fs/fat32.rs:153-340 | under other such conditions creating succeeds, and listing and reading every entry yields one result, which is not the data |
| `FatSession.FreshVolumeIsLossy` | src/fs/fat32.rs:306-340 | a freshly formatted volume with two sectors per cluster meets those, for every file of 513 to 1024 bytes whose byte 512 is not 0 |
| `FatSession.CreateTooLong` | src/fs/fat32.rs:153-340 | creating a file of more than 10000 clusters succeeds, and listing and reading every entry yields one result, the iteration error |
| `FatSession.FreshVolumeIsTooLong` | src/fs/fat32.rs:306-340 | a freshly formatted volume with n FAT sectors, for every n from 79 on, has room for such files |
| `FatRoundTrip.LongFileUnreadable` | src/fs/fat32.rs:119-124 | a file of more than 10000 clusters is created but reading it gives the error |
| `FatRoundTrip.EmptyFileUnreadable` | src/fs/fat32.rs:334 | a new empty file has cluster 0 and size 0 and reading it never succeeds |
| `FatRoundTrip.ReadableIff` | src/fs/fat32.rs:115-168 | after every successful creation the new entry can be read if and only if the data is not empty and takes at most 10000 clusters |
| `FatRuns.ChainsOverRuns` | src/fs/fat32.rs:231-340 | every chain of data clusters keeps its clusters over every run of creations, with any directory numbers and results |
| `FatRuns.DirsOverRuns` | src/fs/fat32.rs:306-340 | directories that are sound at the start keep their clusters over every run of creations, with any directory numbers and results |
| `FatRuns.ListingOverRuns` | src/fs/fat32.rs:174-340 | at the end of every run of creations in separate directories each of them lists exactly the entries it listed at the start and one for each successful call in it whose name is listed |
| `FatRuns.FilesOverRuns` | src/fs/fat32.rs:153-340 | a file outside the directories keeps its clusters and reads the same over every run of creations in them |
| `FatRuns.CreatedFilesSurvive` | src/fs/fat32.rs:153-340 | over every run of creations in separate directories, with any results, each file created on the way is listed at the end and reads as right after its own call; an empty one is listed and stays unreadable |
| `FatRuns.ClustersTakenOnce` | src/fs/fat32.rs:231-340 | no cluster is taken by two calls of a run, whatever directory numbers they were given and whatever they returned |
| `Alignment.AlignUp` | src/allocator.rs:77-84 | the result is the least multiple of the alignment that is not below the address |
| `LinkedList.SizeAlignOk` | src/allocator/linked_list.rs:82-89 | padded sizes cover the request, are multiples of 8 and hold a node; alignments are multiples of 8 |
| `LinkedList.SizeAlignExact` | src/allocator/linked_list.rs:82-89 | the padded alignment is at least 8 and the padded size the least multiple of it that covers the request, or 16; it panics exactly when that exceeds the largest layout |
| `LinkedList.FirstFit` | src/allocator/linked_list.rs:54-67 | the first region in list order that fits, none before it fits |
| `LinkedList.FitIff` | src/allocator/linked_list.rs:69-80 | a region gives a block at `s` if and only if `s` is its lowest aligned address, the block ends inside it and what is left is nothing or at least 16 bytes |
| `LinkedList.NullIff` | src/allocator/linked_list.rs:54-109 | an allocation returns null if and only if no free region can hold the block in this sense |
| `LinkedList.GrantedFirst` | src/allocator/linked_list.rs:54-109 | otherwise it returns that address in the first region that can |
| `LinkedList.Reused` | src/allocator/linked_list.rs:92-114 | freeing a block and asking for its layout again returns the same address and restores the free list |
| `LinkedList.ChurnNeverFails` | src/allocator/linked_list.rs:92-114 | allocating and freeing one layout any number of times never exhausts the heap: every round gets the same address |
| `LinkedList.CutRegion` | src/allocator/linked_list.rs:69-80 | block and remainder are aligned, large enough, disjoint and inside the region, and with the skipped front they make up its size |
| `LinkedList.AllocKeeps` | src/allocator/linked_list.rs:92-109 | an allocation keeps disjointness, containment, alignment and the byte balance |
| `LinkedList.DeallocKeeps` | src/allocator/linked_list.rs:111-114 | a deallocation keeps them too |
| `LinkedList.RunKeeps` | src/allocator/linked_list.rs:92-115 | after every run free and live blocks are disjoint, inside the heap, 8-aligned and at least 16 bytes, and free + live + lost bytes equal the heap size |
| `LinkedList.NothingLost` | src/allocator/linked_list.rs:69-80 | no byte is lost over a run without alignments above 8 |
| `LinkedList.RunFiner` | src/allocator/linked_list.rs:41-67 | every later block lies within one earlier block |
| `LinkedList.FailsForever` | src/allocator/linked_list.rs:41-67 | once every block is smaller than a request it fails after any run |
| `LinkedList.ClientKeepsList` | src/allocator/linked_list.rs:41-52 | a client's write inside its own block never touches a list node |
| `LinkedList.AlignUpInRange` | src/allocator/linked_list.rs:70 | rounding up the start of any region of the list does not overflow |
| `LinkedList.LinkedListAllocator.AddFreeRegion` | src/allocator/linked_list.rs:41-52 | writing one node puts the region at the front of the threaded list |
| `LinkedList.LinkedListAllocator.FindRegion` | src/allocator/linked_list.rs:54-67 | unlinks the first fitting region from the threaded list, or changes nothing |
| `LinkedList.LinkedListAllocator.Alloc` | src/allocator/linked_list.rs:92-109 | refines the abstract step, returns null if and only if no free region can hold the block, otherwise an aligned block, and leaves the words of live blocks alone |
| `LinkedList.LinkedListAllocator.Dealloc` | src/allocator/linked_list.rs:111-114 | refines the abstract step and leaves the words of the other live blocks alone |
| `LinkedList.LinkedListAllocator.ClientWrite` | src/allocator/linked_list.rs:41-52 | the allocator stays valid under client writes |
| `FixedSizeBlock.ListIndexFrom` | src/allocator/fixed_size_block.rs:82-84 | the first class large enough for size and alignment, none before it is |
| `FixedSizeBlock.ClassSizes` | src/allocator/fixed_size_block.rs:9 | the classes are exactly the powers of two from 8 to 2048, so every block holds an aligned 8-byte node |
| `FixedSizeBlock.SmallestClass` | src/allocator/fixed_size_block.rs:82-84 | a layout gets the smallest of them that covers size and alignment, and the fallback if and only if one of the two exceeds 2048 |
| `FixedSizeBlock.BlockServes` | src/allocator/fixed_size_block.rs:37-57 | a block of the chosen class is large enough and aligned for the layout |
| `FixedSizeBlock.HandedWasFree` | src/allocator/fixed_size_block.rs:41-54 | the block handed out was not live, is live now, and no other block's status changes |
| `FixedSizeBlock.RunKeeps` | src/allocator/fixed_size_block.rs:37-80 | in every run blocks never overlap and free lists are duplicate-free and of the right class |
| `FixedSizeBlock.TakenIsPeak` | src/allocator/fixed_size_block.rs:47-52 | blocks of a class ever taken from the fallback equal the peak number live at once |
| `FixedSizeBlock.FixedSizeBlockAllocator.Alloc` | src/allocator/fixed_size_block.rs:37-57 | pops the threaded list, clearing the pointer in the popped block, or asks the fallback, refining the abstract step; the block fits and is aligned |
| `FixedSizeBlock.FixedSizeBlockAllocator.Dealloc` | src/allocator/fixed_size_block.rs:59-79 | writes the node into the freed block and pushes it, keeping every other list intact |
| `FixedSizeBlock.ClientKeepsLists` | src/allocator/fixed_size_block.rs:64-71 | a client's write inside a class block or a large block it holds never touches a list node |
| `FixedSizeBlock.FixedSizeBlockAllocator.ClientWrite` | src/allocator/fixed_size_block.rs:64-71 | the allocator stays valid under client writes |
| `Bump.RunKeeps` | src/allocator/bump.rs:23-49 | in every matched run the counter is the number of live blocks, which are disjoint, aligned as requested and below `next` |
| `Bump.SpaceIff` | src/allocator/bump.rs:27-34 | there is space if and only if some aligned address from `next` on leaves room for the request below the end of the heap |
| `Bump.ResetIff` | src/allocator/bump.rs:42-49 | freeing the last live block makes the whole heap available again; freeing any other moves nothing |
| `Bump.BumpAllocator.Alloc` | src/allocator/bump.rs:24-40 | null if and only if no aligned address from `next` on leaves room; otherwise the lowest such address, apart from all live blocks, and `next` is its end |
| `Bump.BumpAllocator.Dealloc` | src/allocator/bump.rs:42-49 | the pointer moves back to the start of the heap if the block was the last live one, and stays otherwise |
| `Runtime.RunKeeps` | src/task/executor.rs:54-107 | the invariant of executor tables, scancode queue and waker holds in every state of every run without a queue overflow |
| `Runtime.NoLostWakeup` | src/task/keyboard.rs:43-56 | whenever the processor halts the task queue is empty, the waker is registered and every accepted scancode has been delivered |
| `Runtime.DeliveredInOrder` | src/task/keyboard.rs:15-57 | scancodes are delivered once each in the order accepted; `Runtime.AcceptsIff` says which are accepted |
| `Runtime.AcceptsIff` | src/task/keyboard.rs:15-25 | in every reachable state an interrupt accepts its scancode if and only if the stream has started and fewer than 100 accepted ones wait; it then wakes the registered waker once, and wakes nothing otherwise |
| `Runtime.DeliversOldest` | src/task/keyboard.rs:43-56 | each pop of `poll_next` delivers the oldest accepted scancode not yet delivered, if there is one |
| `Runtime.WakerSteps` | src/task/keyboard.rs:43-56 | `poll_next` registers the stream task exactly when its first pop fails and before its second, takes the waker back exactly when that one succeeds, and otherwise returns to the executor without touching it |
| `Runtime.StartedIff` | src/task/keyboard.rs:32-36 | the scancode queue exists if and only if the stream task has been polled |
| `Runtime.PoppedInOrder` | src/task/executor.rs:47-107 | ids leave the task queue in the order they entered it, none lost or added |
| `Runtime.PollsOldest` | src/task/executor.rs:62-71 | the executor takes the oldest id not yet popped, polls it if and only if its task is live, and turns to sleep if and only if there is none |
| `Runtime.SpawnQueues` | src/task/executor.rs:47-53 | a spawned task is live and queued behind all others; it panics if and only if 100 ids are queued |
| `Runtime.HaltsIff` | src/task/executor.rs:80-89 | with interrupts off, the processor halts if and only if the task queue is empty, and interrupts are on again in both cases |
| `Runtime.InterruptResumes` | src/task/executor.rs:80-89 | a halted processor goes on at any interrupt, and at nothing else |
| `Runtime.CacheExact` | src/task/executor.rs:67-75 | the cached wakers are those of the live tasks that have been polled |
| `Runtime.CachedAreLive` | src/task/executor.rs:67-76 | cached wakers belong only to live tasks, and no live task has completed |
| `Runtime.KeyWakesStream` | src/task/keyboard.rs:15-25 | a key pressed while halted queues the stream task and cannot overflow the queue |
| `Runtime.FreshId` | src/task/mod.rs:13-18 | a new id never collides with a live or completed task |
| `Runtime.CompletedNeverPolled` | src/task/executor.rs:62-78 | a completed task is never polled again even if its id is still queued |
| `SimpleExecutor.RoundsLength` | src/task/simple_executor.rs:18-27 | the polls in rounds are as many as the tasks need together |
| `SimpleExecutor.EachPolledAsNeeded` | src/task/simple_executor.rs:18-27 | every task is polled exactly as often as it needs |
| `SimpleExecutor.RoundsAre` | src/task/simple_executor.rs:18-27 | round r polls exactly the tasks that need at least r polls, in the order they were spawned |
| `SimpleExecutor.SimpleExecutor.Run` | src/task/simple_executor.rs:18-27 | popping and pushing back terminates and polls the tasks in rounds, each pending task once per round |
| `Ata.ReceiveSector` | src/ata.rs:416-422 | the 256-word copy loop leaves the drive's sector in the buffer |
| `Ata.DecodeLba` | src/ata.rs:263-286 | the registers written select the second drive in LBA mode, and it decodes the sector number modulo 2^28 from them |
| `Ata.RunKeeps` | src/ata.rs:251-296 | the invariant of flags, buffer, waker and drive holds in every state of every run |
| `Ata.ReadsAreCorrect` | src/ata.rs:100-123 | every finished read returned the requested sector if its number is below 2^28 |
| `Ata.ReadReturns` | src/ata.rs:251-296 | for every disk and sector number some run asks for that sector and gets the sector the drive addresses |
| `Ata.WrongSectorBeyondLimit` | src/ata.rs:264-267 | for every larger number some disk and some run return another sector than the one asked for |
| `Ata.NoInterruptWhenComplete` | src/ata.rs:100-123 | once a read is complete its task is still polling for that sector and no interrupt is due |
| `Ata.CompletedIsQueued` | src/ata.rs:382-433 | a read that completed but is parked has its task queued again; one not queued still waits for the drive with its waker registered |
| `Vga.WrapLayout` | src/vga_buffer.rs:59-76 | byte k of a paragraph stands at row k/80, column k%80, as itself if it is 0x20 to 0x7E and as 0xFE otherwise, and a full row is left only when a further character arrives |
| `Vga.PrintedLine` | src/vga_buffer.rs:155-169 | a line printed between newlines stands in row 23 of the 25 from column 0, printable bytes as they are and others as 0xFE, above a blank row |
| `Vga.LogKeepsRows` | src/vga_buffer.rs:97-104 | writing never changes a row above the current one |
| `Vga.Writer.NewLine` | src/vga_buffer.rs:77-86 | the in-place copy and clear shows the last 25 rows of the log with a blank row appended |
| `Vga.Writer.WriteByte` | src/vga_buffer.rs:59-76 | the buffer shows the last 25 rows of the log with the byte added; the column stays at most 80 |
| `Vga.Writer.WriteString` | src/vga_buffer.rs:97-104 | the buffer shows the end of the log with the text added, bytes outside 0x20 to 0x7E but the newline replaced by 0xFE |
| `Frames.FrameIsUsable` | src/memory.rs:98-104 | every listed frame is page-aligned and lies in a usable region |
| `Frames.UsableIsFrame` | src/memory.rs:98-104 | every page-aligned frame of a usable region is listed |
| `Frames.FramesDistinct` | src/memory.rs:98-104 | no frame is listed twice |
| `Frames.FramesOrdered` | src/memory.rs:98-104 | frames come in the order of their regions and increase within a region |
| `Frames.BootInfoFrameAllocator.AllocateFrames` | src/memory.rs:107-113 | consecutive calls return consecutive usable frames, all different, and nothing ever after the last |

## Left out

- `BootSector::read` and `list_root_directory`: one copies fields out of sector 0, the other lists the root cluster.
- `DirEntry::is_directory`, printing and colours: no invariant.
- Failing sector writes and other tasks using the disk during a FAT operation: the driver's write future cannot fail, and operations are modelled one after the other.
- The ATA write branch of the interrupt handler, error status, and overlapping requests: the globals hold one request, and the flags only identify a write after an unconsumed read.
- `DISK_REQUEST_QUEUE` and `AtaDriver::read_sector`: the queue is filled and never emptied.
- Liveness of the runtime: the theorems say what holds when the processor halts, not that tasks are eventually polled.
- Executor and keyboard stream as objects: they are a transition system over values, because interrupts change the queues between the steps of a poll; aliasing of the shared queue is therefore not represented.
- `Executor::run_until_idle`: same loop with a timed wait in place of the halt.
- Registration in the waker cell is one atomic step; the cell's internal states are library code.
- The address registers of the drive are written in one step: nothing can observe them before the command is issued.
- The two flag loads, the store and the buffer copy of a completion test in `poll` are one step: when the first load finds the flag set no interrupt is due until the next command (`Ata.NoInterruptWhenComplete`), and when it does not the rest is skipped.
- Page-table mapping, `init_heap`, GDT, IDT, PIC and serial set-up: hardware plumbing.
- The fallback heap's algorithm and the layout checks of the allocation API: library code, represented by contracts.
