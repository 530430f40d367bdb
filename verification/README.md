# osldr: a model of the bootloader's memory, disk and loading code

This project models five parts of osldr, a freestanding x86 bootloader, and proves what they
guarantee to each other: the boundary-tag heap, the disk path (BIOS transfers, the LRU sector cache,
raw devices), the FAT reader, the list of free physical memory with the loaders built on it, and the
printing and parsing of numbers.

The code changes things in place, and so does the model.  `Heap`, `Cache`, `Device`, `RawFile`,
`FatVolume`, `FatFile`, `Search`, `PhysMemory`, `Loader`, `CoffLoader` and `ModuleLoader` are classes
whose methods follow the source's branches and loops.  Each is proved against functions on values, and
the main theorems are lemmas about those functions, for every input and every run.

What may fail at any moment (a BIOS call, malloc for a buffer, opening a file) is answered by an
`Oracle` of which nothing is assumed, so that what is proved holds for every pattern of failures.
`Smooth(from, to)` says that nothing failed between two points in time; clauses under it say what the
code does then, exactly.

How the parts fit together:

- `HeapModel`, `Heap`: headers, free list and user areas in a word array.  The theorem about requests
  above 65520 bytes is what makes the buffer loops of `Env` (`Oracle.GetBuffer`, `Obtained`) behave as
  they do.
- `Drive`, `Lru`, `SectorCache`, `SectorIo`, `RawFile`: from CHS registers to a file of bytes.
- `FatTable`, `FatFile`, `LongNames`, `Directory`: FAT entries, files as chains, directories.  The formats
  are those of the Microsoft FAT32 File System Specification 1.03.
- `PhysMem`, `Placing`, `Image`, `Loader`, `Coff`, `Modules`: free regions, and the three loaders.  `Image` is
  what src/io.c makes of a file on either filesystem; a loader relies on nothing that `RawFile` and
  `FatFile` do not promise.  The header is that of the Multiboot Specification 0.6.96, sections 3.1.2 and
  3.1.3.
- `Numbers`: ulltoa and strtoul.
- `Common`, `Arith`, `Bytes`, `Env`: shared types and small lemmas.

## Model

| member | source | states |
|---|---|---|
| HeapModel.MallocMeets | src/stdlib.c:122-167 | malloc fails exactly when no free block is large enough, and then changes nothing; otherwise it keeps the heap invariant, puts exactly one block of sufficient size into use, and leaves every other block in use as it was |
| HeapModel.MallocTakes | src/stdlib.c:122-167 | malloc takes the first listed block that is large enough; exactly the rounded size of it comes into use and the rest is a free block, listed first, or all of it when fewer than 20 bytes would be left; every other block and the order of the list stay |
| HeapModel.FreeMeets | src/stdlib.c:169-211 | free keeps the invariant (coalescing included) and retires exactly the one block, or changes nothing for NULL or when the free list is empty |
| HeapModel.FreeUndoesMalloc | src/stdlib.c:122-211 | freeing what malloc has just taken makes the blocks as they were, if and only if it was not the last free one |
| HeapModel.FreeIsListedFirst | src/stdlib.c:169-211 | what has been freed is the first block of the list, joined with its free neighbours |
| HeapModel.ReallocMeets | src/stdlib.c:213-288 | for sizes up to 2^32 - 4: realloc succeeds if and only if the size is not 0 and, for NULL, some free block is large enough, or, for a block, the free list is not empty and the block itself, it with its successor, or another free block is large enough; the answer is an area of at least the size, every other block in use stays, a failure changes nothing, and a move retires the old block unless it took the last free one |
| HeapModel.GrowTakes | src/stdlib.c:240-273 | a block that realloc grows in place gets, of itself and its successor, exactly the rounded size, and the rest is free, or both whole when fewer than 20 bytes would be left; every other block stays |
| HeapModel.WrappedGrow | src/stdlib.c:238-273 | for larger sizes, which ALIGN takes to 0, a block that could grow is cut down to no words at all, unless it and its successor have none |
| HeapModel.WrappedMove | src/stdlib.c:238-284 | for them any other block is moved to the first listed one, of which no words are kept if it has five or more, and all if fewer |
| HeapModel.CopyFitsIff | src/stdlib.c:275-284 | a block that moves fits into its new area if and only if the size is at most 2^32 - 4 or the first listed block is short and still has as many words |
| HeapModel.EveryRun | src/stdlib.c:122-288 | over every run of malloc, free and realloc (of at most 2^32 - 4 bytes) from a state with the invariant (HeapInit's is one) headers tile the range, the list holds exactly the free blocks and no two free blocks could join; and whenever the blocks in use are those of the start, none for example, so are the free ones |
| HeapModel.UserAreasAreSeparate | src/stdlib.c:33-37 | no word of one block's user area lies in another block, header or user area |
| HeapModel.UserAreaStaysInWindow | src/stdlib.c:66-72 | no user area crosses a 64 KB boundary, so none has more than 65520 bytes |
| HeapModel.LargeRequestsAreRefused | src/stdlib.c:122-167 | a request for more than 65520 bytes returns NULL and changes nothing, unless rounding it up wraps |
| HeapModel.AlignIsFaithful | src/stdlib.c:30-31 | rounding a size up to words yields at least that size if and only if the size is at most 2^32 - 4, and never a word more |
| HeapModel.IdlePartitionIsUnique | src/stdlib.c:74-211 | two states over the same range with nothing in use have the same blocks |
| HeapModel.PartitionIsUnique | src/stdlib.c:74-288 | two states over the same range with the same blocks in use have the same free blocks |
| Heap.Heap.HeapInit | src/stdlib.c:74-120 | the words written encode a heap with the invariant over the aligned range, nothing in use, and the free list in ascending order |
| Heap.RangeIs | src/stdlib.c:74-92 | the heap begins at the first multiple of 16, or at the 64 KB boundary behind it if fewer than 20 bytes lie between, and ends without a last stretch of fewer than 20 bytes |
| Heap.RangeEndsInsideIff | src/stdlib.c:80-89 | the heap ends inside the area given if and only if the address is a multiple of 16, or what its rounding skips is not more than the stretch left out at the end |
| Heap.Heap.Malloc | src/stdlib.c:122-167 | the code in the word array does what the model's malloc does, and no word of a user area in use changes |
| Heap.Heap.Free | src/stdlib.c:169-211 | the code does what the model's free does, and no word of another area in use changes |
| Heap.Heap.Realloc | src/stdlib.c:213-288 | for sizes up to 2^32 - 4 the code does what the model's realloc does; every other area in use reads as before, and the area returned begins with the words of the old one, in place or moved |
| Lru.TouchIsRecent | src/io.c:325-373 | moving to the front of a list of 32 and dropping what falls off keeps exactly the last 32 distinct sectors touched, in order |
| SectorCache.AgreementIsUnique | src/io.c:346-373 | a cache that agrees with its history holds the tags of the most recent sectors touched and no others |
| SectorCache.Cache.ReadCache | src/io.c:325-344 | a hit returns the data stored under the tag and counts as a touch; a miss changes nothing; tags stay unique |
| SectorCache.Cache.WriteCache | src/io.c:346-373 | the sector is stored, in place of the least recently touched one when 32 are held; tags stay unique and the cache agrees with its history while the 32-bit time has not wrapped |
| Drive.LocateRecovers | src/drive.c:183-216 | the cylinder, head and sector computed for an LBA name that LBA |
| Drive.RegistersNameTheSector | src/drive.c:183-216 | for every sector of a drive whose geometry fits int 13h, the packed CH, CL and DH decode to it again |
| Drive.GeometryIsAddressable | src/drive.c:121-124 | a geometry decoded from the registers fits int 13h, if the sector count in CL is not 0 |
| Drive.GeometryEndsAtTheLast | src/drive.c:121-124 | the registers that the geometry is decoded from name the drive's last sector: the last cylinder, head and sector, and the total less one |
| Drive.Drive.ReadDrive | src/drive.c:140-217 | the sectors counted are in the buffer in order, each CHS transfer stays on one track, no other sector is asked for; when nothing fails CHS reads all, and EDD the number modulo 65536, which is all of them if and only if there are fewer than 65536 |
| SectorIo.Device.ReadRetried | src/io.c:442-457 | a read fails if and only if eight attempts have been made and something has failed in each; one good attempt is enough |
| SectorIo.TargetIs | src/fat.c:728-736 | an offset counts from the start, from the cursor, or backwards from the end |
| SectorIo.Device.ReadSector | src/io.c:375-484 | whatever is cached and whatever fails, the buffer receives exactly the counted sectors of the device and nothing else of it changes; a request past the end reads nothing; the drive is asked for requested sectors only, so for none outside the partition; when nothing fails all are read and each is touched in the cache |
| Env.ObtainedIsFirstThatFits | src/io.c:423-433 | what the halving loop gets with plentiful memory is the first of the number wanted, its half, its quarter and so on down to two that fits, or nothing |
| Env.SmallUnitsAreObtained | src/io.c:423-433 | with plentiful memory the halving loop gets a buffer of at least one unit, for units of at most 21840 bytes |
| Env.LargeUnitsAreNot | src/fat.c:656-664 | for units of which no two fit the heap's limit it gets a buffer only when a single unit is wanted |
| RawFile.RawFile.ReadFile | src/raw.c:24-96 | from any cursor and for any length below 2^32, the bytes counted are the device's bytes from the cursor on, and all of them when nothing fails |
| RawFile.RawFile.SetFilePointer | src/raw.c:105-129 | a seek that leaves the device is refused and changes nothing; any other sets the cursor |
| FatTable.PackedReadsBack | src/fat.c:266-331 | in every FAT12, FAT16 or FAT32 table that packs a list of entries, entry c reads back as element c, for every c |
| FatTable.UnmaskedEntryIsLinkIff | src/fat.c:319-330 | what the reader takes for a link is the link if and only if the table is not FAT32 or the four reserved bits are zero; otherwise the chain ends |
| FatTable.LastNineEnd | src/fat.c:903-916 | of the values of 12, 16 and 28 bits the last nine end a chain |
| FatTable.FatVolume.GetNextCluster | src/fat.c:266-331 | the result is the entry of the flat table, also for a 12-bit entry split between two sectors; a failure yields a value that ends the chain, and without failures so does nothing else |
| FatTable.MountLaysOut | src/fat.c:889-922 | the areas of a mounted volume lie one behind the other, modulo 2^32: the table behind the reserved sectors, the root directory behind all copies of the table, the data behind the root directory, with all sectors that are left |
| FatTable.MountsIff | src/fat.c:832-917 | a boot sector mounts if and only if its fields are those of a FAT volume, and its version is 0 or its clusters are fewer than 65525 |
| FatTable.MountGuarantees | src/fat.c:785-936 | for every boot sector that mounts: cluster size and type limits hold, data begins where the areas before it end, modulo 2^32, and all clusters counted lie inside the volume if and only if those areas, cut to 32 bits, do |
| FatTable.OversizedTablesMount | src/fat.c:785-936 | a boot sector whose tables are larger than the volume mounts, with over four billion clusters |
| FatFile.FatFile.ReadFile | src/fat.c:620-716 | from a position on the chain the bytes counted are the file's from the cursor on, the cursor advances by them, the cluster stays on the chain or becomes an end mark, and nothing else of the buffer changes; when nothing fails the read ends exactly where ReadsTo says, for every cluster size |
| FatFile.FatFile.ByteOnDisk | src/fat.c:620-716 | byte p of a file is the byte of the drive at its place in the cluster that is so many links behind the first, where cluster 2 is the first one behind the areas before the data |
| FatFile.FatFile.ReadsToIsUnique | src/fat.c:632-712 | ReadsTo determines the number of bytes read |
| FatFile.FatFile.WholeReadIff | src/fat.c:632-712 | a smooth read delivers everything if and only if no run start within the request stops the reader; with consecutive clusters that is always, unless clusters have 32 KB and two or more are needed |
| FatFile.FatFile.HalfReadIff | src/fat.c:632-712 | a smooth read delivers at least half if and only if no run start in the first half begins a run of two or more 32 KB clusters; with smaller clusters always |
| FatFile.FatFile.ShortReadIff | src/fat.c:632-712 | a smooth read never goes beyond a break in the second half of the request, and with clusters of at most 16 KB it is short if and only if there is such a break |
| FatFile.FatFile.SecondClusterIsNotRead | src/fat.c:632-712 | of a file of two clusters that are not neighbours, read whole, one cluster is delivered, whatever the cluster size |
| FatFile.FatFile.SetFilePointer | src/fat.c:723-768 | a refused seek changes nothing at all; any other sets the cursor and leaves the cluster that the table's links lead to, with those reads that fail giving an end mark, so always an end mark if a link is needed and all fail; it stays on the chain, whatever fails, if no link is needed, and otherwise when nothing fails, or, if it rewinds, lands on the chain that begins with the low half of the first cluster's number, from whatever state |
| FatFile.FatFile.SeekStaysIff | src/fat.c:755-765 | from the chain, a seek that is not refused ends on it for every pattern of failed reads if and only if it needs no link of the table and need not rewind above cluster 65535 |
| FatFile.FatFile.RewindIsRightIff | src/fat.c:755 | that chain is the file's if and only if the first cluster's number is below 65536 |
| FatFile.FatFile.Use | src/fat.c:620-768 | any sequence of reads and seeks is served as by a cursor over the file's bytes, when nothing fails and the first cluster's number is below 65536 |
| LongNames.CheckSum | src/fat.c:252-263 | the loop computes the sum that Sum defines |
| LongNames.MixAddsTheByte | src/fat.c:252-263 | a step of the checksum adds the byte, and nothing else, to the sum rotated right by one bit |
| LongNames.RotationMovesBits | src/fat.c:260 | the rotation moves the upper seven bits down and the lowest to the top |
| LongNames.SumGrows | src/fat.c:252-263 | the checksum of no bytes is 0, and each further byte is one step |
| LongNames.SumTellsAByte | src/fat.c:252-263 | changing any one byte of a name changes its checksum |
| LongNames.SameNameIff | src/string.s:123-150 | two names compare equal if and only if they have the same length and differ in the case of letters only |
| LongNames.LongMatchIsSound | src/fat.c:423-546 | in every directory without a flagged ordinal from 21 to 63, an entry found by its long name follows a complete set of at most five entries with ordinals counting down and its checksum, which spells the name |
| LongNames.ScanFindsFirst | src/fat.c:400-546 | in every directory without a flagged ordinal from 21 to 63: what a search finds is the first entry, before any end mark, that is neither deleted nor part of a long name and has the name searched: the long one, if a complete set that the code takes, with its checksum, stands before it, and otherwise all 11 bytes of the short one; or nothing, if there is none |
| LongNames.TakenAre | src/fat.c:423-446 | which entries the code takes for a set: attribute, type, cluster, checksum and ordinals counting down from a flagged one, but not ordinal 5 |
| LongNames.FitsIff | src/fat.c:435-472 | a flagged ordinal from 1 to 63 is stored inside the 256 bytes of the name if and only if it is at most 20; a larger one is written wholly outside |
| LongNames.LaidOutSpells | src/fat.c:447-470 | the entries laid out for a name of up to 255 characters spell it |
| LongNames.LongNameIsFoundIff | src/fat.c:423-546 | a short entry behind the set for a name, deleted entries among them allowed, is found by that name in upper or lower case if and only if nothing earlier in the directory ends the search, the entries there leave no set unfinished, the name has at most 65 characters, and the short name does not begin with the byte 5 |
| LongNames.UnfinishedIff | src/fat.c:423-546 | entries leave the search inside a set if and only if the last of them are the first ones of a set that the code takes and those before them leave it outside one |
| LongNames.NoneEndsIff | src/fat.c:400-546 | nothing earlier ends the search if and only if a scan of those entries finds nothing and there is no end mark among them |
| LongNames.UnfinishedSetHidesTheNext | src/fat.c:423-470 | the first entry of a set of two, alone, ends no search but leaves a set unfinished |
| Directory.Search.FindDirEntry | src/fat.c:333-553 | without flagged ordinals from 21 to 63, the search along a chain of clusters gives what a scan of all its entries in one sequence gives, wherever clusters end, and that is the first entry with the name searched; a failure can only make it find nothing |
| Directory.EntriesAreTheBytes | src/fat.c:401-403 | every byte of a directory is in the entry at its place |
| PhysMem.AddCovers | src/mem.c:31-98 | adding a range yields exactly the old bytes and the part of the range above 1 MB, or nothing new without a list node |
| PhysMem.AddJoins | src/mem.c:31-98 | adding a range breaks no free stretch up, and the range is in one piece with the first region that it overlaps or meets |
| PhysMem.AddKeepsDisjointIff | src/mem.c:48-75 | a disjoint list stays disjoint if and only if no region but the first that touches overlaps the new range |
| PhysMem.AddMayOverlap | src/mem.c:48-75 | a range over two regions makes the list overlap |
| PhysMem.MaskUpIsLowestAligned | src/mem.c:116-121 | masking with an alignment gives the lowest aligned address at or above the region's start, or one below the region when that is at or above 4 GB |
| PhysMem.AllocSucceedsIff | src/mem.c:100-159 | PhysAlloc takes a range if and only if the size is not 0 and a single region can hold the rounded size at the fixed address, or at its lowest aligned address below 4 GB; the answer is that place if and only if the address asked for is below 4 GB, and then it is NULL exactly when nothing was taken and nothing changed |
| PhysMem.HighAddressesAreCut | src/mem.c:151 | a fixed address of 4 GB is taken and answered with NULL, one 1 MB above it with 1 MB |
| PhysMem.AllocTakes | src/mem.c:100-159 | whatever is answered, what it takes is exactly the rounded range, all of it free before; the list stays disjoint and above 1 MB |
| PhysMem.AllocLeavesWhole | src/mem.c:100-159 | PhysAlloc breaks no free stretch up but the one that it takes from, and that only where it takes |
| PhysMem.AllocTakesTheFirst | src/mem.c:116-121 | it takes from the first region of the list that can hold the size |
| PhysMem.RoundedIsLeastMultiple | src/mem.c:109-110 | the size it works with is the least multiple of 4 that is not smaller |
| PhysMem.FreeAfterAlloc | src/mem.c:100-164 | giving back what was allocated below 4 GB restores everything but the bytes that rounding added |
| PhysMem.WithoutNodeTailIsLost | src/mem.c:123-148 | without a list node PhysAlloc still succeeds, at the same address, and loses the tail of the region if and only if no other region meets it, and nothing else |
| PhysMem.AllocConservesIff | src/mem.c:100-159 | a request leaves free, held and lost bytes together as they were if and only if its address is below 4 GB or nothing fits |
| PhysMem.EveryRunConserves | src/mem.c:31-164 | over every run of PhysAlloc, with addresses below 4 GB, and PhysFree, free, held and lost ranges stay disjoint and above 1 MB, and the bytes of the three together stay the same |
| PhysMem.MultiplesOf4LoseNothing | src/mem.c:110-163 | with sizes that are multiples of 4 a run loses nothing |
| PhysMem.PhysMemory.AddToPhysList | src/mem.c:31-98 | the list code does what Add does |
| PhysMem.PhysMemory.PhysAlloc | src/mem.c:100-159 | the list code does what Alloc does |
| PhysMem.PhysMemory.PhysFree | src/mem.c:161-164 | the list code does what Add does with the address and size given |
| Image.ImageFile.ReadFile | src/io.c:519-522 | on either filesystem: only the buffer's range changes, the bytes counted are the file's if the cursor is on its chain, and a smooth read is complete if and only if the bytes are there and no run start stops a FAT read |
| Image.ImageFile.SetFilePointer | src/io.c:529-532 | on either filesystem: an offset is reached if and only if it is inside the file; a seek ends on the chain, whatever fails, if it needs no link of the table, and otherwise when nothing fails; to rewind, the first cluster must be below 65536 |
| Loader.PlanPlacesHeader | src/loader.c:119-149 | an accepted header is found in the loaded bytes where it says it is, and no more is loaded than there is room for |
| Loader.PlanMeetsHeader | src/loader.c:107-163 | a header is accepted if and only if its load address is not behind its own, nor farther in front of it than it stands in the file, its load end is 0 or not in front of the load address, and its bss end is 0 or not in front of where the whole file would end; then the image begins, is loaded and is cleared as its fields say, as far as the file goes |
| Loader.ConsistentIsAcceptedIff | src/loader.c:119-149 | a header with consistent addresses is accepted if and only if it names no end of the bss or one at or behind where the whole file would end; one that is refused is given |
| Loader.Loader.LoadMultiboot | src/loader.c:107-182 | every failure gives back all memory but what rounding added; only free bytes change; at the module step the range up to the end of the bss, or of what is loaded when that is 0, is allocated, at the load address if that is not 0; if the seek ended on the chain, every address below the load end (or below the place of the file's last byte when that is 0) holds its byte of the file and every other one 0, whatever failed before or after; when nothing fails and the seek finds the chain, that step is reached if and only if the header is accepted, there is room, and the file's reader does not stop |
| Loader.GivenBackWhole | src/loader.c:152-172 | with a size that is a multiple of 4 a failed load leaves the free set as it was |
| Loader.HeaderIsInPlace | src/loader.c:107-182 | every byte of the header that was loaded is in memory at its address |
| Coff.CoffLoader.LoadSections | src/loader.c:424-484 | the loop stops at section `fail`; the free list is then exactly that of the sections placed, or that of the roll-back; what is written changes free bytes only, if what hangs over was free; when all are loaded, each section whose seek ended on the chain and that no later one has written over is as its header was read: PE at ImageBase plus its address with VirtualSize bytes, plain COFF at its address with SizeOfRawData bytes, zeros for a bss; when nothing fails and rewinding finds the file, `fail` is the first section, as its header was read, that has no room or is not delivered |
| Coff.UndisturbedSeeksLand | src/loader.c:438-469 | when nothing fails and the first cluster is below 65536, every seek of a load ends on the chain |
| Coff.GivenBackIff | src/loader.c:438-484 | a load that fails at section i gives everything back, but for the at most three bytes that rounding added to each section at its own address, if and only if no section before i asks for address 0 |
| Coff.FixedIsGivenBack | src/loader.c:474-484 | without address 0 the list is disjoint again, lacks at most three bytes a section, and none when sizes are multiples of 4 |
| Coff.LastByteIsLost | src/loader.c:474-484 | the last byte of the section with address 0 that ends highest is never free again |
| Coff.OthersMemoryIsFreed | src/loader.c:474-484 | giving back a large section at address 0 frees memory that was not free before |
| Coff.OnlyFreeChangesIff | src/loader.c:438-469 | whatever memory held, loading changes free bytes only if and only if all raw data beyond its section's rounded range was written to free memory |
| Coff.SectionIsInPlace | src/loader.c:438-469 | after loading, a section's range is no longer free and holds what the section wrote, its raw data and then zeros if the seek ended on the chain, unless the raw data of a later section hangs over into it |
| Coff.LongRawDataOverwrites | src/loader.c:447-457 | two sections for which it does: the second one's raw data overwrites the first and memory that was not free |
| Modules.ModuleLoader.LoadModules | src/multiboot.c:234-293 | the array keeps exactly the modules that loaded, in order, with range and arguments; their files are in memory, apart from each other, page-aligned if asked; only free bytes change; what was free is free, held by a module, or one of at most three bytes for each module that failed, and none when their sizes are multiples of 4; when nothing fails, a module is loaded if and only if its file is known, below 4 GB, finds room, and is read to its end |
| Modules.TextIsSplit | src/multiboot.c:240-266 | the name of a module is the text before the first blank, and its arguments are what stands behind that blank and all that follow it, or none without a blank |
| Modules.SurvivorAt | src/multiboot.c:234-293 | a module that has been loaded keeps its place among those that have, with the range that its file got and its arguments |
| Modules.LoadedIff | src/multiboot.c:246-276 | when nothing fails a module is loaded if and only if its file is known, smaller than 4 GB and read to its end, and a single region that is free when its turn comes has room for it |
| Numbers.Ulltoa | src/stdio.c:10-32 | the buffer holds the number's text and a NUL, and nothing behind it changes |
| Numbers.TextHasItsValue | src/stdio.c:10-32 | the text is a numeral of the base whose value is the number, without a leading zero |
| Numbers.TextIsLowerCase | src/stdio.c:10-32 | the text of a number has no capitals |
| Numbers.Strtoul | src/stdlib.c:293-349 | the longest numeral behind white space, sign and prefix is read, and its value cut to 32 bits is returned, or ULONG_MAX when some digit made the number smaller |
| Numbers.PrintedNumbersReadBack | src/stdlib.c:293-349 | the text of any number in base 2 to 36 is consumed whole and has that value, and for numbers below 2^32 no overflow is noticed |
| Numbers.NumberIsRead | src/stdlib.c:293-349 | behind white space and a plus sign, with 0x, 0X, 0 or nothing in front as its base allows, and up to what is no digit any more, a numeral is read to its end and has its value |
| Numbers.OtherTextIsNotRead | src/stdlib.c:293-349 | of a text that begins with anything else nothing is skipped and nothing read |
| Numbers.CapitalsReadAlike | src/stdlib.c:328-330 | a numeral with letters in upper or lower case has the same value |
| Numbers.WhatDigitsStandFor | src/stdlib.c:330 | digits stand for 0 to 9, and letters for 10 to 35 |
| Numbers.OverflowNoticedIff | src/stdlib.c:326-340 | for every numeral of every base, an overflow is noticed if and only if the value, cut to 32 bits, is smaller than the cut value of what is left without its last digit, or without its last two, and so on |
| Numbers.LastDigitNoticedIff | src/stdlib.c:326-340 | so an overflow by the last digit alone is noticed if and only if the remainder is smaller than the number before it |
| Numbers.DecimalIsRecognisedIff | src/stdlib.c:293-325 | with base 0 the text of a number is taken as decimal if and only if the number is not 0 |

## Findings

Each is established by the lemma or contract named, at a concrete input or as an exact condition.

- A FAT read of a fragmented file may stop early: the loop compares what has been read with a request
  that it has already lowered (src/fat.c:632, 700-701).  A file of two clusters that are not neighbours,
  read whole, yields one of them.  `FatFile.SecondClusterIsNotRead`, `ShortReadIff`, `WholeReadIff`, `HalfReadIff`.
- With clusters of 32 KB a run of two or more clusters is never read: the buffer loop halves two to one
  and stops without trying one (src/fat.c:656-664).  `Env.LargeUnitsAreNot`, `FatFile.TwoAreNeeded`.
- Rewinding uses the low half of the first cluster's number (src/fat.c:755), opening a file both
  (src/fat.c:600).  `FatFile.RewindIsRightIff`.
- A seek reports success although a table read failed on the way (src/fat.c:757-765), and when all of them
  fail the cluster is an end mark (`FatFile.SetFilePointer`).  It is safe from failures if and only if it needs
  no link and need not rewind above cluster 65535.  `FatFile.SeekStaysIff`.
- FAT32 entries are not masked to 28 bits (src/fat.c:324).  `FatTable.UnmaskedEntryIsLinkIff`.
- FatMount's arithmetic wraps; a volume smaller than its own tables mounts.  `FatTable.OversizedTablesMount`.
- No long name of more than 65 characters is ever found: the byte 5 at the start of an entry is replaced
  before it is known whether the entry is a long one, whose ordinal it then is (src/fat.c:415-419).  For the
  same reason the checksum of a short name that begins with it does not match its set's.
  `LongNames.LongNameIsFoundIff`, `TakenSetsAreShort`, `PatchChangesSum`.
- A set of long entries that was begun and not finished hides the long name behind it.
  `LongNames.UnfinishedIff`, `LongNameIsFoundIff`, `UnfinishedSetHidesTheNext`.
- A long entry with a flagged ordinal from 21 to 63 is written behind the 256 bytes of the name
  (src/fat.c:435-472).  `LongNames.FitsIff`.
- realloc and free do nothing when the free list is empty, even if the block is large enough
  (src/stdlib.c:173, 225).  `HeapModel.ReallocMeets`, `FreeMeets`.
- HeapInit rounds the address up but does not reduce the size by that (src/stdlib.c:80-84), so the heap may end up to
  15 bytes behind the area given.  `Heap.RangeEndsInsideIff`, `HeapMayOverrunItsArea`.
- ALIGN wraps above 2^32 - 4 (`HeapModel.AlignIsFaithful`), so realloc may cut a block down to nothing, or
  copy it into an area that is too small.  `HeapModel.WrappedGrow`, `WrappedMove`, `CopyFitsIff`.
- PhysAlloc cuts its answer to 32 bits (src/mem.c:151): memory taken at a fixed address of 4 GB or more is
  answered with another address, or NULL.  `PhysMem.HighAddressesAreCut`, `AllocSucceedsIff`, `AllocConservesIff`.
- PhysFree does not round the size up as PhysAlloc does (src/mem.c:110, 163).  `PhysMem.FreeAfterAlloc`.
- A free range joins only the first region that it touches (src/mem.c:48-75).  `PhysMem.AddKeepsDisjointIff`,
  `AddMayOverlap`.
- A list node that cannot be had loses the tail of a region (src/mem.c:135).  `PhysMem.WithoutNodeTailIsLost`.
- The end of the bss is compared with where the whole file would end, so consistent headers are refused
  (src/loader.c:142-149).  `Loader.ConsistentIsAcceptedIff`.
- A COFF section that asks for address 0 is placed anywhere but given back at 0.  `Coff.GivenBackIff`,
  `OthersMemoryIsFreed`.
- Raw data longer than its section is written past the allocated range (src/loader.c:447-457).
  `Coff.OnlyFreeChangesIff`, `LongRawDataOverwrites`.
- An image with an empty section is never loaded, as PhysAlloc finds no room for nothing.
  `Coff.EmptySectionsAreRefused`.
- strtoul misses overflows: 5000000000 reads as 705032704; and with base 0 the text "0" is refused.
  `Numbers.OverflowNoticedIff`, `OverflowMayGoUnnoticed`, `DecimalIsRecognisedIff`.
- An EDD read of 65536 sectors or more is cut to the number modulo 65536 (src/drive.c:140-182), as the
  contract of `Drive.ReadDrive` says exactly.

## Left out

- BIOS and assembly (src/asm.s, src/start.s, src/string.s): a drive is a sequence of bytes that does not change; the memory and string routines are modelled by what they do.
- OpenDevice and logical partitions (src/io.c:117-323): the loop that looks for them never ends once one is found; a device is given with its range of sectors.
- GetDriveParameters' failure path (src/drive.c:135-137): the geometry is given.
- The fixed root directory of FAT12 and FAT16 (src/fat.c:345-395): only the search along a chain of clusters is modelled.
- Trim, UnicodeToOem, ValidateFilename and path splitting (src/fat.c:141-250, 555-598): a search starts from a valid name; characters of long names are their low bytes, as in the code.
- LoadELF, LoadBinary, LoadBootsector and the search for the Multiboot header (src/loader.c:20-105, 184-332, 496-649).
- The system tables of Multiboot, VBE, APM, and the memory map (src/multiboot.c:9-232, src/mem.c:166-287).
- Configuration, menu, console, video, messages, time and printf (src/config.c, src/main.c, src/conio.c, src/video.c, src/messages.c, src/time.c, src/stdio.c:43-421).
- PhysMem.EveryRunConserves: addresses of 4 GB and more, for which `PhysMem.AllocConservesIff` shows it false.
- 64-bit and pointer wrap-around in the loaders: free memory is taken to lie below 4 GB, and a range that starts there is taken not to wrap.
- List nodes in the loaders: `Loader`, `Coff` and `Modules` take it that PhysAlloc and PhysFree can have a node; `PhysMem` says what happens otherwise.
- Heap.Heap.HeapInit: the address is not 0 and the area reaches the first 64 KB boundary, which the code takes for granted; the word behind the heap does not look like a free block that could join.
- Heap.Heap.Realloc: sizes above 2^32 - 4, for which ALIGN wraps to 0 and the code may write over other blocks, are outside the contract; `HeapModel.WrappedGrow`, `WrappedMove` and `CopyFitsIff` say what happens up to the copy.  For malloc they are inside.
- HeapModel.ReallocMeets: the same sizes, for the same reason.
- HeapModel.EveryRun: calls of realloc with the same sizes.
- RawFile.RawFile.ReadFile: lengths of 2^32 and more, and the cut of a product of 2^32 or more in malloc's 32-bit argument: such a buffer does not fit an address space of 32 bits.
- FatFile.FatFile.ReadFile: the file's chain is taken to be long enough for its size, on data clusters; no other property of the chain is assumed, and the bytes are those of its clusters.
- LongNames.LongMatchIsSound: entries with a flagged ordinal from 21 to 63 are excluded from directories, because the 256 bytes of the name do not hold them and the code does not check; `LongNames.FitsIff` says where it writes.
- LongNames.LongNameIsFoundIff: the same entries.
- LongNames.ScanFindsFirst: the same entries.
- Directory.Search.FindDirEntry: the same entries.
- SectorCache.Cache.WriteCache: after 2^32 touches the time wraps and the order of eviction is no longer known; what sectors read as still is.
- Modules.ModuleLoader.LoadModules: all files are on one device; the strings' memory and CloseFile are not modelled.
- Loader.Loader.LoadMultiboot: the header fields are values, not overwritten in place; the entry into the image is not modelled.
- Coff.CoffLoader.LoadSections: the headers before the section table (src/loader.c:333-422) are given as values; what a section array holds after a failure is not stated.
