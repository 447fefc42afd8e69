# ZweiOS, modelled and proved in Dafny

A model of the parts of the ZweiOS kernel whose correctness does not depend on hardware, with proofs of what they
promise.  `dafny verify dfyconfig.toml` checks everything.

The code that changes state is modelled as it is written: classes with the kernel's tables and buffers as fields, its
loops with invariants.  Every method is proved against functions on plain values, and the theorems (invariants over all
runs, round trips, refinement) are proved about those functions.

| files | what |
|---|---|
| `Bytes`, `FatTable`, `FatChains`, `FatDriver` | the FAT32 table on a disk of bytes: links, allocation, freeing chains |
| `FatContents`, `FatDirent`, `FatFile`, `FatWrite` | files as byte strings: reading and writing through chains |
| `FatOwnership` | who owns which cluster, over every run |
| `FatNames`, `FatDirectory`, `FatDirOps` | 8.3 names; directories as finite maps; lookup, create, remove |
| `FatSession`, `FatRuns` | create, look up, write, look up again, read, remove, as theorems over the driver's calls; any sequence of calls in a directory as a run of a map |
| `FatWalk` | resolving a path, component by component |
| `Partitions` | the partition probe |
| `ImageLayout`, `ImageBuilder`, `ImageReads`, `ImageState`, `ImageSession`, `ImageWalk` | the host-side image builder, and the kernel finding, reading and then using what it built, by the paths the files were given |
| `Processes`, `Scheduler`, `SchedulerRuns`, `ProcessRuns` | the process table and the round-robin scheduler; exit codes, forks and quanta along runs |
| `Pipes`, `Descriptors`, `Vfs`, `PipeRuns`, `DescriptorLaws` | the descriptor table and pipes |
| `Checksum`, `Packets`, `Network` | Internet checksum, UDP over IPv4 over Ethernet |
| `Memory`, `TcpStream` | memcpy and memmove; the receive buffer of a TCP socket |
| `Frames`, `FrameRuns` | the physical frame bitmap |
| `Lines`, `UserStack`, `Paths` | the line stepper; the initial user stack; path normalisation and the choice of a mount |

## What turned out not to hold

Each of these is a lemma, with the exact condition where there is one.

- A READY process can wait for ever: a process that exits and is replaced in its own slot gets a fresh quantum
  (`DelayIffRecycled`, `HogStarves`, `HogIsReachable`).  Counting such recyclings gives the bound back
  (`BoundedWaiting`), but for a process that reaps itself: replaced in its own slot it is its own parent, and what it
  leaves behind can hide another process from the scheduler's walk for ever (`SelfReapHaunts`, `HauntedIsReachable`,
  `HauntedStarves`).
- Live pids stay distinct only as long as the 32-bit counter has not wrapped onto a live pid (`MakeKeepsPidsIff`).
- Pipe creation with O_WRONLY among its flags makes closing the read end count against the write end
  (`CreateKeepsInvIff`, `CreatesIff`).
- The checksum of a buffer of more than 131074 bytes need not be the one RFC 1071 defines, since carries past 32 bits
  are lost (`ChecksumIsRfc1071Iff`, `LongIsNotRfc1071`); it verifies all the same (`StoredChecksumVerifies`).
- File offsets of 2^32 clusters and more are cut (`PositionIsOffset`).
- A creation loses the cluster it takes when the directory has no slot and cannot grow: because it has no chain, or
  because that cluster was the last one free (`VnodeCreate`, `RunsLoseNothingIff`).
- A creation under a name that starts with the byte 0xE5 succeeds and loses the cluster it takes: the entry reads as
  deleted, and the next creation overwrites it (`HiddenCreated`, `RunsLoseNothingIff`).
- Removing a directory does not look whether it is empty; the clusters of what is in it are lost (`RemoveKeeps`,
  `StrandedIff`).
- The image builder stores files for directories the image does not have, and lists them nowhere: their clusters are
  lost from the start (`ImageIsStartState`).
- The image builder drops what follows a second dot: A.B.C is stored as A.B (`OwnNameIff`, `DroppedExtension`).
- Creating a name 8.3 cannot hold, or one that starts with the byte 0xE5, succeeds but is not found again
  (`CreatedFoundIff`); creating a name that is there leaves two (`DuplicateCreated`).
- The built image leaves table entries past the last data cluster free.  The kernel's allocator hands them out once the
  data area is full, exactly then (`AllocatableIff`, `ImageAllocates`, `FullImageAllocatesOutside`).
- The image builder records a file with a path of more than two parts under the second of them (`OwnPathLeadsIff`,
  `PathLeads`); a walk that goes on behind it leads nowhere (`DeeperLeadsNowhere`).
- Names that differ only behind their 8th character, or behind the 3rd of the extension, are one name (`CollideIff`).
- A fork passes on the registers the parent had when it was last switched out, not those it has (`ForkedProcessIs`).
- A duplicated descriptor has an offset of its own: reading through it does not move the original (`OffsetsPart`).
- A path component of more than 63 characters is looked up in pieces, as if there were a slash every 63
  (`TokensArePieces`).
- The image's `.` and `..` entries have blank names: neither is found by its name (`DotsOnImage`).
- Freeing frame 0 makes a later allocation return address 0, which also means failure (`FrameZeroLooksLikeFailure`); it
  is the only way there (`FrameZeroOnlyAfterFree`, `AllocFrame`).
- A packet whose total length is below the length of its header passes all tests, and its handler is told to read far
  behind it (`HandedOnInsideIff`).
- Line drawing overflows `int` on long lines; which ones is decided by the extents and their greatest common divisor
  (`LineFitsIff`).

## What the code needs from its surroundings

- FAT32: at most 8 sectors a cluster (the cluster buffer has 4096 bytes); sector numbers within the 28 bits of the ATA
  driver; links that are free, end-of-chain or in range where chains are freed; where clusters are allocated, as many free
  ones in the data area as the call sets out to take, or no free entry past it (`Room`); no long-name entries in
  directories where names are looked up.
- A file is opened by one node at a time, and its chain is disjoint from its directory's.
- Line drawing: extents that fit (`LineFits`, exactly).
- Sequences of calls on one directory (`FatRuns`): new names that 8.3 can hold, and no file of 4 GiB or more.
- The initial stack: at most 32 arguments and 32 environment strings, and room for them.
- Relative paths: a current directory of at most 254 bytes, and either a combined path that ends within the 256-byte
  buffer or an output that is full before its last byte is read (`Determined`).

## Model

| member | source | states |
|---|---|---|
| `FatTable.EntriesApart` | kernel/fs/fat32.cpp:42-52 | the bytes of two different table entries, in any copies of the table, never overlap |
| `FatTable.ClustersApart` | kernel/fs/fat32.cpp:35-37 | two different clusters never overlap on disk |
| `FatTable.Merge` | kernel/fs/fat32.cpp:72-76 | updating an entry sets its low 28 bits and keeps the reserved top four |
| `FatTable.RelinkedView` | kernel/fs/fat32.cpp:57-81 | writing an entry in every copy of the table changes exactly one link, keeps the top four bits of every entry, the agreement of the copies, all clusters and all other sectors |
| `FatTable.ClusterWrittenView` | kernel/fs/fat32.cpp:107-110 | overwriting a cluster changes that cluster, no other cluster and no table entry |
| `FatTable.KeptAlong` | kernel/fs/fat32.cpp:57-127 | along any run of driver calls the last disk keeps from the first the reserved bits, the agreement of the copies and all sectors outside tables and data |
| `FatDriver.Fat32.GetNextCluster` | kernel/fs/fat32.cpp:39-55 | the link of the cluster, or end-of-chain for numbers outside 2..0x0FFFFFF6 |
| `FatDriver.Fat32.SetNextCluster` | kernel/fs/fat32.cpp:57-81 | exactly one link of the abstract table changes; the disk keeps everything `Kept` lists (reserved bits, copies, other sectors) |
| `FatDriver.Fat32.ReadCluster` | kernel/fs/fat32.cpp:301-306 | the buffer holds the cluster |
| `FatDriver.Fat32.WriteCluster` | kernel/fs/fat32.cpp:390-392 | exactly one cluster of the abstract volume changes |
| `FatDriver.Fat32.ScanSector` | kernel/fs/fat32.cpp:88-98 | the first free entry from 2 on in a table sector, or 0 if the sector has none |
| `FatDriver.Fat32.AllocateCluster` | kernel/fs/fat32.cpp:83-118 | the lowest free cluster and only it is taken: marked end-of-chain, appended to the chain of the previous cluster, zeroed; with no free entry nothing changes |
| `FatChains.AllocatableIff` | kernel/fs/fat32.cpp:83-118 | the entry the allocator picks is a cluster of the data area if and only if a data cluster is free or no entry is free at all |
| `FatDriver.Fat32.FreeClusterChain` | kernel/fs/fat32.cpp:120-127 | terminates on every table whose links are free, end-of-chain or in range, cyclic ones included, and frees exactly the clusters reachable from the start |
| `FatChains.LoopsForGood` | kernel/fs/fat32.cpp:120-127 | once a walk along the links meets a cluster twice it never leaves the clusters already met |
| `FatChains.StopsForGood` | kernel/fs/fat32.cpp:39-55 | once a walk leaves the table it stays at end-of-chain |
| `FatChains.FreedToAll` | kernel/fs/fat32.cpp:120-127 | when the freeing loop stops, what it freed is all that was reachable |
| `FatChains.NonFreeUpdate` | kernel/fs/fat32.cpp:120-127 | the measure of the freeing loop: freeing a used entry lowers the number of used entries by one |
| `FatChains.ChainDistinct` | kernel/fs/fat32.cpp:39-55 | a complete chain never meets a cluster twice |
| `FatChains.ChainReachable` | kernel/fs/fat32.cpp:120-127 | what is reachable from the head of a complete chain is that chain |
| `FatChains.ChainsMerge` | kernel/fs/fat32.cpp:39-55 | complete chains that share a cluster have the same tail |
| `FatContents.ContentsSplice` | kernel/fs/fat32.cpp:377-392 | rewriting part of one cluster of a chain is splicing into the bytes of the file at the right place |
| `FatContents.GrownContents` | kernel/fs/fat32.cpp:397-406 | a chain grown by freshly allocated clusters holds the old bytes followed by zeros |
| `FatContents.TakenGrown` | kernel/fs/fat32.cpp:83-118 | appending the allocated cluster extends the chain by it and leaves every other link and cluster alone |
| `FatFile.PositionIsOffset` | kernel/fs/fat32.cpp:286-287 | the driver works at the byte offset it was given if and only if that is below 2^32 clusters (the cluster index is cut to 32 bits) |
| `FatFile.SkipClusters` | kernel/fs/fat32.cpp:289-295 | the cluster reached after n links of the chain, or that the chain is shorter |
| `FatFile.ReadChunk` | kernel/fs/fat32.cpp:301-318 | one turn delivers exactly the bytes of the file that lie in the current cluster |
| `FatFile.VnodeRead` | kernel/fs/fat32.cpp:269-322 | reading returns exactly the requested range of the chain's contents, clipped to the file size (not for directories) and to the chain |
| `FatFile.WantedIs` | kernel/fs/fat32.cpp:277-283 | a file is read up to its size, a directory as far as asked |
| `FatDirent.EntryStored` | kernel/fs/fat32.cpp:338-350 | storing a directory entry through its sector changes those 32 bytes of the volume and nothing else |
| `FatDirent.StoreStartCluster` | kernel/fs/fat32.cpp:338-350 | only the start cluster of one directory entry changes |
| `FatDirent.StoreFileSize` | kernel/fs/fat32.cpp:412-423 | only the file size of one directory entry changes |
| `FatWrite.NextOrAllocate` | kernel/fs/fat32.cpp:398-405 | the next cluster of the chain, or a newly appended zeroed one; 0 only on a full volume |
| `FatWrite.WriteChunk` | kernel/fs/fat32.cpp:377-395 | one turn splices its bytes into the file's contents |
| `FatWrite.EnsureFirst` | kernel/fs/fat32.cpp:332-351 | a file without clusters gets its first one, recorded in its directory entry; fails only when no entry is free |
| `FatWrite.ReachCluster` | kernel/fs/fat32.cpp:361-371 | the cluster with the wanted index, the chain lengthened by zeroed clusters as needed |
| `FatWrite.WriteBytes` | kernel/fs/fat32.cpp:373-407 | the buffer, or on a full volume a non-empty prefix of it, is spliced into the contents |
| `FatWrite.RecordSize` | kernel/fs/fat32.cpp:409-424 | the size grows to the end of the write, in the node and in its directory entry, and is otherwise kept |
| `FatWrite.VnodeWrite` | kernel/fs/fat32.cpp:324-427 | a count n > 0 comes with contents = (old contents, extended by zeroed clusters) with the first n bytes spliced in at the write position, size = max(old, offset + n), the directory entry updated, and a chain of exactly max(old length, index of the last byte written + 1) clusters; -1 and short counts only on a full volume; no other link or cluster changes |
| `FatSession.WrittenByte` | kernel/fs/fat32.cpp:324-427 | byte i of a file after a write is the buffer's where it was written, else the old byte, else zero |
| `FatSession.WriteFills` | kernel/fs/fat32.cpp:324-427 | if the bytes of a chain past the file's size are zero, they are after any write past the new size, and a gap left by writing past the end reads as zeros |
| `FatSession.WrittenReadsBack` | kernel/fs/fat32.cpp:269-427 | reading where a write went returns the bytes written |
| `FatOwnership.CreateKeepsIff` | kernel/fs/fat32.cpp:654-657 | a file created under a visible name takes one free cluster, which its entry leads to, and loses none; all chains stay complete, in range and disjoint if and only if the allocator stays in the data area |
| `FatOwnership.ForfeitKeeps` | kernel/fs/fat32.cpp:717-725 | a creation that fails for want of a slot, or that stores a name starting with 0xE5, loses exactly the cluster it took: it is in use and no entry leads to it |
| `FatOwnership.GrowKeeps` | kernel/fs/fat32.cpp:83-118 | growing one chain takes only free clusters and disturbs no other chain |
| `FatOwnership.RemoveKeeps` | kernel/fs/fat32.cpp:785-788 | removing a file or directory frees exactly its own chain's clusters, and loses exactly the clusters of everything that was in it, at any depth |
| `FatOwnership.StrandedIff` | kernel/fs/fat32.cpp:728-807 | a removal strands clusters if and only if something with a chain lies in the removed directory |
| `FatOwnership.RunsKeepOwnership` | kernel/fs/fat32.cpp:57-127 | in every state of every run of creation, writing and removal of files and directories all chains are complete, in range and pairwise disjoint, no free cluster lies in a chain, and the clusters lost are exactly as many as the losing calls lost: one for each creation that leaks or is hidden, and those of what was in a removed directory |
| `FatOwnership.RunsLoseNothingIff` | kernel/fs/fat32.cpp:646-726 | a run loses no cluster if and only if it removes no directory with anything in it, and no creation in it finds a free cluster while its name starts with 0xE5 or its directory has no slot and cannot grow (no chain, or one cluster free) |
| `FatOwnership.RoomAlongRun` | kernel/fs/fat32.cpp:83-118 | the room left in the data area is the room at the start less what the run took; without free entries past the data it never runs into them |
| `FatOwnership.WriteIsGrow` | kernel/fs/fat32.cpp:324-427 | a write is one growth step, and every other file keeps its chain and its bytes |
| `FatNames.CreateShortName` | kernel/fs/fat32.cpp:170-202 | the loops compute the eleven bytes of the short name |
| `FatNames.FormatShortName` | kernel/fs/fat32.cpp:129-168 | the loops compute the formatted name, cut to the room there is |
| `FatNames.EqualsIgnoreCase` | kernel/fs/fat32.cpp:204-215 | true exactly for names equal up to ASCII case |
| `FatNames.LettersChange` | kernel/fs/fat32.cpp:129-215 | case is that of the 26 ASCII letters, and no other byte changes |
| `FatNames.FormatUndoesCreateIff` | kernel/fs/fat32.cpp:129-202 | formatting a created short name gives the name back in lower case if and only if 8.3 can hold it |
| `FatNames.CollideIff` | kernel/fs/fat32.cpp:170-202 | two names are stored under the same short name if and only if the first 8 characters before the last dot and the first 3 after it agree but for ASCII case and blanks at their ends |
| `FatDirectory.KeyIsLower` | kernel/fs/fat32.cpp:606-614 | matching a name is being filed under that name in lower case |
| `FatDirectory.ListingHit` | kernel/fs/fat32.cpp:558-614 | the first visible match of a scan is the binding of the map |
| `FatDirectory.ListingMiss` | kernel/fs/fat32.cpp:558-643 | a scan that meets the end without a match means the name is not bound |
| `FatDirectory.ListingKeys` | kernel/fs/fat32.cpp:558-643 | the bound names are exactly those of the visible entries |
| `FatDirectory.ListedIff` | kernel/fs/fat32.cpp:558-643 | told from the bytes of the entries: listed are exactly the names of entries before the first end marker that are not deleted (0xE5), not part of a long name (0x0F) and not a volume label (0x08), each bound to the first such entry |
| `FatDirectory.ListingCreated` | kernel/fs/fat32.cpp:674-688 | filling the first slot adds exactly one binding, or none if the entry is hidden by its first byte |
| `FatDirectory.CreatedDistinctIff` | kernel/fs/fat32.cpp:674-688 | a creation keeps the names of a directory distinct if and only if its key was free or its entry is hidden |
| `FatDirectory.DuplicateCreated` | kernel/fs/fat32.cpp:646-726 | creating a name that is already there leaves two entries with that name: create does not look |
| `FatDirectory.CreatedFoundIff` | kernel/fs/fat32.cpp:646-726 | after creating an absent name, looking it up succeeds if and only if 8.3 can hold the name and it does not start with 0xE5 |
| `FatDirectory.RemoveExactIff` | kernel/fs/fat32.cpp:784-790 | marking an entry deleted removes exactly one binding if and only if no later entry has the same name |
| `FatDirectory.RemovedOk` | kernel/fs/fat32.cpp:784-790 | removal keeps a well-formed directory well formed |
| `FatDirectory.OnceIff` | kernel/fs/fat32.cpp:784-790 | of the visible entries only the first match carries a name if and only if the entries after it do not bind the name |
| `FatDirectory.DistinctIffOnce` | kernel/fs/fat32.cpp:558-643 | names are distinct if and only if every name is carried at most once |
| `FatDirectory.NewEntryReads` | kernel/fs/fat32.cpp:677-688 | the new entry has the short name, the type, the start cluster and size 0 |
| `FatDirectory.EntryFormat` | kernel/fs/fat32.cpp:677-688 | where the fields lie: name at 0, attributes at 11, start cluster in halves at 20 and 26, size 0 at 28 |
| `FatDirectory.UpdatesElsewhere` | kernel/fs/fat32.cpp:338-424 | deletion, a new size and a new start cluster each change their own bytes of an entry and no other |
| `FatDirectory.DotsListing` | kernel/fs/fat32.cpp:694-711 | a new directory lists itself and its parent and nothing else |
| `FatDirOps.ScanCluster` | kernel/fs/fat32.cpp:558-638 | the inner loop of lookup and remove finds the first match, the end marker, or neither; long-name entries are passed over |
| `FatDirOps.FindEntry` | kernel/fs/fat32.cpp:545-643 | the two nested loops find the entry the directory map binds, if any |
| `FatDirOps.VnodeLookup` | kernel/fs/fat32.cpp:533-644 | finds exactly the bound names and opens the bound entry: its start cluster, size, type and place on disk |
| `FatDirOps.OpenedOk` | kernel/fs/fat32.cpp:616-634 | a looked-up file with a complete chain of its own is ready for reading and writing |
| `FatDirOps.VnodeRemove` | kernel/fs/fat32.cpp:728-807 | fails exactly for unbound names, without effect; otherwise frees what is reachable from the entry's start cluster and marks that one entry deleted; long-name entries may be about for every name but the empty one |
| `FatDirOps.RemovedListing` | kernel/fs/fat32.cpp:728-807 | in a well-formed directory removal deletes exactly the binding of the name if and only if one entry carries the name; other names may repeat |
| `FatDirOps.SlotInCluster` | kernel/fs/fat32.cpp:674-676 | the first end marker or deleted entry of a cluster |
| `FatDirOps.GrownEntries` | kernel/fs/fat32.cpp:717-722 | a directory that takes a cluster gains end markers at its end |
| `FatDirOps.PlaceEntry` | kernel/fs/fat32.cpp:677-711 | the slot's 32 bytes become the new entry, and a new directory's cluster its two dot entries |
| `FatDirOps.VnodeCreate` | kernel/fs/fat32.cpp:646-726 | leaves a full volume alone; fails and leaks the cluster it took if and only if a cluster is free, the directory has no slot, and it has no chain or only one cluster is free; otherwise succeeds: the first slot (of a directory grown by one cluster exactly when it had none) is filled and nothing else changes |
| `FatDirOps.CreatedListing` | kernel/fs/fat32.cpp:646-726 | creating an absent storable name adds exactly that binding, to an empty file or directory in its own new cluster, the attribute bit 0x10 set for a directory and only for one, even when the directory had to grow; the directory stays well formed and no name gets a second entry |
| `FatDirOps.HiddenCreated` | kernel/fs/fat32.cpp:674-688 | a creation under a name that starts with 0xE5 changes no binding, and the entry it filled is again the first slot: the next creation overwrites the only record of its cluster |
| `FatDirOps.CreateIsCall` | kernel/fs/fat32.cpp:646-726 | on the table every outcome of a creation, failed and hidden ones included, is a creation call of the ownership runs; hidden if and only if the name starts with 0xE5 |
| `FatDirOps.RemovedIsStep` | kernel/fs/fat32.cpp:728-807 | on the table a removal, of a file or of a directory with all that is in it, is one removal call of the ownership runs |
| `FatSession.ListingReplaced` | kernel/fs/fat32.cpp:409-424 | updating the entry of a name that one entry carries rebinds that name and no other |
| `FatSession.DirectoryAfterWrite` | kernel/fs/fat32.cpp:409-424 | a write leaves the file's directory as it was except for the file's own entry |
| `FatSession.CreateAndOpen` | kernel/fs/fat32.cpp:533-726 | create then lookup gives a file or directory, as asked for, with size 0 and one cluster of its own, and every other name is bound as before; it fails exactly when no cluster is free or the creation leaks |
| `FatSession.CreateDirectory` | kernel/fs/fat32.cpp:533-726 | create a directory and look it up: it opens as a directory of size 0 with one cluster, in which looking up `.` leads back to that cluster, `..` to the first cluster of the directory it is in, and any other name to nothing |
| `FatSession.WriteAndReopen` | kernel/fs/fat32.cpp:324-644 | after a write at any offset a fresh lookup by name sees the same chain, the contents with the bytes spliced in, and the new size as far as 32 bits hold it; every other name is bound as before |
| `FatSession.RoundTrip` | kernel/fs/fat32.cpp:269-726 | create, look up, write, look up again, read: what comes back is what was written, unless the volume fills up |
| `FatSession.CreateWriteRemove` | kernel/fs/fat32.cpp:324-807 | create, write, remove: the name is gone, the directory lists what it listed before, and the free clusters are those from before, less one if the directory had to grow |
| `ImageLayout.ChainsDisjoint` | tools/package_toolchain_disk.py:127-131 | no two files of the image share a cluster, and none uses a directory's |
| `ImageLayout.BuilderNameIsShort` | tools/package_toolchain_disk.py:143-147 | for a name with at most one dot the builder stores the short name the kernel would |
| `ImageLayout.NeverDots` | tools/package_toolchain_disk.py:143-147 | no name the builder stores reads back as `.` or `..` |
| `ImageWalk.DirectoryIsParent` | tools/package_toolchain_disk.py:171-198 | the directory a file is recorded in is the one its path names: its number is that of the directory whose name is the first part of the path, and the root for a path of one part |
| `ImageWalk.HasPlaceIff` | tools/package_toolchain_disk.py:174-198 | a path, in whatever case, has a place on the image if and only if it has one component or its first one is bin, lib, include or home |
| `ImageLayout.ChunksContents` | tools/package_toolchain_disk.py:185-195 | the clusters of a file, one after the other, are its bytes padded with zeros |
| `ImageLayout.RecordsInOrder` | tools/package_toolchain_disk.py:174-212 | a directory lists its files in the order in which they were given |
| `ImageBuilder.DiskImage.AllocCluster` | tools/package_toolchain_disk.py:127-131 | hands out the next cluster and marks it end-of-chain |
| `ImageBuilder.DiskImage.WriteClusterData` | tools/package_toolchain_disk.py:139-141 | overwrites the start of one cluster and nothing else |
| `ImageBuilder.DiskImage.AddFile` | tools/package_toolchain_disk.py:184-195 | stores a file in as many new clusters as it needs, linked in order, and touches no other cluster |
| `ImageBuilder.DiskImage.WriteTables` | tools/package_toolchain_disk.py:214-221 | entry c of both tables is the link of cluster c, and 0 past the clusters handed out |
| `ImageBuilder.PackTable` | tools/package_toolchain_disk.py:216-218 | the packed table reads back entry by entry |
| `ImageBuilder.Write83Dirent` | tools/package_toolchain_disk.py:143-151 | the five stores make one directory entry |
| `ImageBuilder.DirectoryBuffer` | tools/package_toolchain_disk.py:202-211 | a directory's cluster holds its records and end markers |
| `ImageBuilder.BuildImage` | tools/package_toolchain_disk.py:63-221 | the image holds every file in order, the five directories with the records of the files whose paths name them (`DirectoryIsParent`), both tables, the master boot record and the parameter block |
| `ImageReads.FileOnImage` | tools/package_toolchain_disk.py:63-221 | following the generated table from a file's recorded start cluster gives a complete chain whose clusters hold the file's bytes followed by zeros |
| `ImageReads.DirectoryOnImage` | tools/package_toolchain_disk.py:200-212 | every directory of the image is one cluster with its records |
| `ImageReads.DotsOnImage` | tools/package_toolchain_disk.py:200-212 | every subdirectory the builder makes starts with two directory entries with blank names, to itself and to the root; looking up `.` or `..` finds nothing, and the empty name finds the directory itself |
| `ImageReads.ProbeFindsTheVolume` | kernel/fs/fat32.cpp:217-267 | the kernel's probe of a built image recovers the geometry the builder used |
| `ImageReads.BuildAndRead` | tools/package_toolchain_disk.py:63-221 | building an image and reading any range of a file with the kernel's reader returns that range of the file |
| `ImageReads.BuildLookupRead` | tools/package_toolchain_disk.py:63-221 | building, probing, mounting, looking a file up by name and reading returns the file's bytes, for every file whose stored name is unique in its directory |
| `ImageWalk.AloneIsNamedOnce` | tools/package_toolchain_disk.py:171-212 | a file whose stored name no other file of its directory has, nor one of the directories, is named by one record there |
| `ImageWalk.PathLeads` | tools/package_toolchain_disk.py:63-221 | on a built image a walk from the root by the first part of the path and the name stored for the file leads to the start cluster, size and type of that file |
| `ImageWalk.DeeperLeadsNowhere` | kernel/fs/vfs.cpp:192-231 | a walk that goes on behind a file of the image leads nowhere |
| `ImageWalk.OwnPathLeadsIff` | tools/package_toolchain_disk.py:171-198 | a file's own path is one `PathLeads` speaks of if and only if it has at most two parts, and its last part is a name 8.3 can hold with at most one dot |
| `ImageWalk.BuildWalkRead` | tools/package_toolchain_disk.py:63-221 | from the files to the bytes: build the image, find its partition by the kernel's partition probe, probe and mount it, resolve the path from the root, read: the answer is the requested range of the file |
| `ImageReads.ProbeFindsThePartition` | kernel/fs/partition.cpp:164-265 | the partition probe of a built image finds one bootable FAT32 partition, at sector 2048 and 63488 sectors long |
| `ImageReads.OwnNameIff` | tools/package_toolchain_disk.py:143-151 | the name stored for a file reads back as its own name in lower case if and only if 8.3 can hold it and it has at most one dot |
| `ImageReads.DroppedExtension` | tools/package_toolchain_disk.py:143-151 | A.B.C, which 8.3 can hold, is stored as A.B |
| `ImageState.ImageIsStartState` | tools/package_toolchain_disk.py:63-221 | a built image is a state runs can start from: every file an entry leads to and every directory owns its chain, the lost clusters are exactly those of files for directories the image has not, and the free entries are those from the first cluster not handed out to the end of the table, past the data area included |
| `ImageState.ImageEntry` | tools/package_toolchain_disk.py:184-212 | every file and directory that counts as owned has a visible entry on the image that leads to its chain |
| `ImageState.ImageAllocates` | kernel/fs/fat32.cpp:83-118 | on a built image the allocator picks the first cluster not handed out; it lies on the disk if and only if the builder left a data cluster |
| `ImageState.FullImageAllocatesOutside` | kernel/fs/fat32.cpp:83-118 | on the image of one file of 7863 clusters the allocator picks entry 7870, whose first sector is the one after the end of the disk |
| `ImageState.ImageRoomIff` | tools/package_toolchain_disk.py:127-131 | there is room for n more clusters on a built image if and only if the builder left n |
| `ImageState.ImageRuns` | kernel/fs/fat32.cpp:57-127 | every run on a built image keeps all chains complete and disjoint, has lost exactly what the builder left unlisted and what the losing calls lost, and can still take what the builder left less what the run took |
| `ImageState.BuildAndRoundTrip` | tools/package_toolchain_disk.py:63-221 | building an image, mounting it, opening any of its five directories by name, creating a file there, writing and reading it by name gives the bytes written whenever the builder left the clusters needed |
| `FatRuns.Find` | kernel/fs/fat32.cpp:533-644 | a file of the map is found by its name, open with its own chain and size; a name that is none is not |
| `FatRuns.WriteFile` | kernel/fs/fat32.cpp:324-427 | finding and writing a file patches its bytes in the map, as far as the answer says, and no other file; a short answer means a full volume |
| `FatRuns.ReadFile` | kernel/fs/fat32.cpp:269-322 | finding and reading a file gives the map's bytes in that range |
| `FatRuns.OpenFile` | kernel/fs/vfs.cpp:352-380 | opening with the flag that creates: a file of the map is left alone, a name that is none becomes an empty file, or is refused on a full volume |
| `FatRuns.RemoveFile` | kernel/fs/fat32.cpp:728-807 | removing a file takes it out of the map and leaves all others; a missing one changes nothing |
| `FatRuns.RunAll` | kernel/fs/fat32.cpp:269-807 | any sequence of calls in one directory refines a map from names to byte strings: the answers are those of a run of the map, the directory ends up holding the map the run ends in, with disjoint complete chains, all its other entries and everything outside the volume are kept, and a call fails only when no cluster is left |
| `FatRuns.RunIsApplied` | kernel/fs/fat32.cpp:269-807 | as long as no call fails, maps and answers are those of the calls applied in turn |
| `FatRuns.RunSpares` | kernel/fs/fat32.cpp:324-807 | calls on other files and reads leave a file as it is, whether they fail or not |
| `FatRuns.WriteThenRead` | kernel/fs/fat32.cpp:269-427 | what one call wrote is what a later call reads there, whatever was done to other files between |
| `ImageSession.BuildAndRun` | tools/package_toolchain_disk.py:63-221 | building an image, mounting it, opening one of its directories and making any sequence of calls there gives exactly the answers of a map that starts with the image's files, whenever the builder left the clusters the calls may take |
| `Partitions.PartitionProbe` | kernel/fs/partition.cpp:164-265 | the loops compute what `Probed` says, which the next three lemmas pin to the bytes of the disk |
| `Partitions.ProbeLists` | kernel/fs/partition.cpp:202-264 | with a boot record and no GUID table the partitions are those of the entries with a size and a type, in order: place, size, boot flag, and kind by the type byte or else by the first sector; with none the whole disk, if it holds anything known |
| `Partitions.GuidIff` | kernel/fs/partition.cpp:164-200 | a disk counts as one with a GUID table if and only if its boot record is signed and has an entry of type 0xEE or the next sector starts with the signature |
| `Partitions.MarksDecide` | kernel/fs/partition.cpp:50-86 | which marks in a boot sector stand for which file system |
| `FatWalk.ResolveRelative` | kernel/fs/vfs.cpp:192-231 | resolving a path by repeated lookup from a node gives the node the directory maps lead to, and none if they lead nowhere |
| `FatWalk.TokensArePieces` | kernel/fs/vfs.cpp:198-221 | what the loop takes one by one are the components of the path, backslashes counting as slashes, those of more than 63 characters cut into pieces of 63; for every path |
| `FatWalk.TokensAreComponents` | kernel/fs/vfs.cpp:198-221 | for a path without backslash and without such a component they are its components |
| `Scheduler.Kernel.constructor` | kernel/proc/process.cpp:17-46 | the boot state |
| `SchedulerRuns.BootInv` | kernel/proc/process.cpp:17-46 | the invariant of the runs holds at boot |
| `Scheduler.Kernel.GetByPid` | kernel/proc/process.cpp:102-109 | the first live slot with the pid |
| `Scheduler.Kernel.GetAll` | kernel/proc/process.cpp:152-162 | the live entries in slot order |
| `Scheduler.Kernel.SchedPickNext` | kernel/proc/sched.cpp:18-51 | the walk over the copied list picks what a cyclic search over the slots picks |
| `Scheduler.Kernel.SchedTick` | kernel/proc/sched.cpp:53-134 | the whole state after a tick is `Tick` of the state before |
| `Scheduler.Kernel.ProcessCreate` | kernel/proc/process.cpp:48-100 | the whole state after a creation, in the lowest unused or zombie slot |
| `Scheduler.Kernel.ProcessFork` | kernel/proc/process.cpp:164-209 | the whole state after a fork |
| `Scheduler.Kernel.ProcessKill` | kernel/proc/process.cpp:133-150 | the whole state after a kill |
| `Scheduler.Kernel.ProcessExit` | kernel/proc/process.cpp:119-131 | the whole state after an exit; what becomes of the exit code is `ParentGetsExitCode` |
| `Scheduler.Kernel.WaitPass` | kernel/proc/process.cpp:211-244 | the whole state after one pass of waiting, and its answer: pid and status of the child reaped, that there is none, that none is dead yet, or to go on |
| `Scheduler.FirstHitIs` | kernel/proc/sched.cpp:36-42 | the cyclic search returns the nearest slot that leads to a READY entry |
| `Scheduler.WalkFinds` | kernel/proc/sched.cpp:26-42 | the position in the list of live entries where the walk stops is that slot |
| `SchedulerRuns.NearestHit` | kernel/proc/sched.cpp:18-51 | the chosen process is READY and at least as near as any READY one |
| `SchedulerRuns.SwitchToReady` | kernel/proc/sched.cpp:92-110 | a switch only goes to a READY entry, which becomes the only RUNNING one |
| `SchedulerRuns.YieldGivesWayIff` | kernel/proc/sched.cpp:136-141 | after a yield the next tick gives the processor away if and only if some process is READY, and then to a nearest one |
| `SchedulerRuns.StepKeepsInv` | kernel/proc/process.cpp:48-244 | every event keeps live pids distinct, time slices within the quantum and the current entry the only RUNNING one, unless it recycles the current slot or the pid counter has wrapped onto a live pid |
| `SchedulerRuns.RunKeepsInv` | kernel/proc/process.cpp:48-244 | the same along whole runs |
| `SchedulerRuns.TickAdvances` | kernel/proc/sched.cpp:53-134 | every tick brings a waiting process strictly nearer, by time or by slots, or gives it the processor |
| `SchedulerRuns.OthersDoNotDelay` | kernel/proc/process.cpp:48-244 | no other event delays a READY process, except that recycling the current slot adds at most a quantum less one tick |
| `SchedulerRuns.BoundedWaiting` | kernel/proc/sched.cpp:18-134 | a READY process that is not killed is made current within 31 quanta of 5 ticks, and 4 ticks more for every time the current slot was recycled, whatever else is created, killed or reaped; new pids are fresh and the current process does not reap itself |
| `SchedulerRuns.StepKeepsSteadyIff` | kernel/proc/process.cpp:48-244 | what bounded waiting rests on survives an event if and only if the event is fair: a new pid is unused and the current process does not reap itself |
| `SchedulerRuns.AllowedRunIsFair` | kernel/proc/process.cpp:48-244 | a run that recycles no current slot and meets only fresh pids is fair, and recycles nothing |
| `SchedulerRuns.DelayIffRecycled` | kernel/proc/process.cpp:48-100 | an event lengthens a wait if and only if it recycles the slot of the current process in the middle of its quantum |
| `SchedulerRuns.SelfReapHaunts` | kernel/proc/process.cpp:211-244 | exit, create, exit, wait, exit, tick: a process recycled into its own slot reaps itself, and the state the tick leaves is one of those that starve |
| `SchedulerRuns.HauntedIsReachable` | kernel/proc/process.cpp:48-244 | such a state is reached from boot |
| `SchedulerRuns.HauntedStarves` | kernel/proc/sched.cpp:18-51 | with a dead entry of pid 0 the list walk can restart before the shell for ever, and a READY process is passed over for any number of ticks without any recycling |
| `SchedulerRuns.HogStarves` | kernel/proc/process.cpp:48-131 | a process that exits and recycles its own slot before its quantum ends starves a READY one for any number of ticks |
| `SchedulerRuns.HogIsReachable` | kernel/proc/process.cpp:48-131 | such a state is reached from boot |
| `SchedulerRuns.MakeKeepsPidsIff` | kernel/proc/process.cpp:62 | making a process keeps live pids distinct if and only if the counter names no other live process |
| `SchedulerRuns.LoadedSaved` | kernel/proc/sched.cpp:71-131 | saving and loading all 20 registers are inverse, and the rest of the frame is untouched |
| `SchedulerRuns.TickKeepsRegisters` | kernel/proc/sched.cpp:53-134 | no tick changes a register of any process, live or saved |
| `SchedulerRuns.RunKeepsRegisters` | kernel/proc/sched.cpp:53-134 | over any run, with any number of switches, a process finds its registers as it left them |
| `SchedulerRuns.NewProcessRegisters` | kernel/proc/process.cpp:85-97 | a new process starts at its entry point on its own stack, unless it was put in the current slot |
| `SchedulerRuns.WaitSparesCurrent` | kernel/proc/process.cpp:211-244 | a process that is not its own parent cannot reap itself |
| `ProcessRuns.ExitIsReported` | kernel/proc/process.cpp:119-244 | after a process ended with a code, along any run that does not recycle, kill or reap its slot, whoever reaps it gets its pid and the low eight bits of that code times 256 |
| `ProcessRuns.KillIsReported` | kernel/proc/process.cpp:133-244 | the same for a killed process, with 0xF7 (the low eight bits of -9) times 256 |
| `ProcessRuns.ParentGetsExitCode` | kernel/proc/process.cpp:119-244 | from exit to wait: along any run without recycling that leaves the dead alone, a parent that waits for the child by its pid gets its pid and exit code |
| `ProcessRuns.ParentFinds` | kernel/proc/process.cpp:211-226 | a parent that asks for a dead child by its pid gets that child and no other |
| `ProcessRuns.WaitAnswers` | kernel/proc/process.cpp:211-244 | something is reaped if and only if the caller has a dead child that fits (any process counts as a child of the shell), and "no child" is answered if and only if it has none that fits, dead or alive |
| `ProcessRuns.ReapsOwn` | kernel/proc/process.cpp:211-226 | only the shell reaps children of others, and reaping frees the slot |
| `ProcessRuns.DeadStaysOff` | kernel/proc/sched.cpp:18-134 | a dead process does not get the processor back until its slot is recycled, along any run |
| `ProcessRuns.ExitGivesWayIff` | kernel/proc/process.cpp:119-131 | the tick after an exit gives the processor away if and only if somebody is READY |
| `ProcessRuns.WaitGivesWayIff` | kernel/proc/process.cpp:232-241 | the same after a pass of waiting that has to go on |
| `ProcessRuns.TickGivesWayIff` | kernel/proc/sched.cpp:53-110 | a tick gives the processor away if and only if it is the last of a quantum and somebody is READY; the next one then has 5 ticks |
| `ProcessRuns.QuantumIsKept` | kernel/proc/sched.cpp:53-68 | whatever is created, forked, killed or reaped meanwhile, a process that does not yield, exit or wait keeps the processor for its whole quantum |
| `ProcessRuns.PickLast` | kernel/proc/sched.cpp:44-50 | with nobody READY the shell is chosen if it runs, else none |
| `ProcessRuns.SwitchMatches` | kernel/proc/sched.cpp:71-131 | a switch stores each of the 20 registers under its own name and loads those of the next process likewise |
| `ProcessRuns.CreatedProcess` | kernel/proc/process.cpp:48-100 | pid, parent, type, entry point, quantum and aligned kernel stack of a new process |
| `ProcessRuns.ForkedProcessIs` | kernel/proc/process.cpp:164-209 | the child has the parent's program, entry point and user stack and the registers the parent had when it was last switched out, with rax 0; what the parent computed since is not passed on |
| `ProcessRuns.PidsCountUp` | kernel/proc/process.cpp:48-209 | every process made gets the next pid, modulo 2^32; without a slot none is used up |
| `ProcessRuns.TicksAreCharged` | kernel/proc/sched.cpp:53-64 | along any run every tick is charged to the process it interrupts and to no other |
| `ProcessRuns.ShellSurvives` | kernel/proc/process.cpp:48-244 | along any run from any state nothing but its own exit ends the shell: it is never killed, reaped or recycled |
| `Vfs.Tables.constructor` | kernel/fs/pipe.cpp:90-119 | no descriptor but the standard streams, and every ring empty |
| `Vfs.Tables.VfsAllocFd` | kernel/fs/vfs.cpp:331-343 | the lowest closed descriptor from 3 on is opened |
| `Vfs.Tables.VfsClose` | kernel/fs/vfs.cpp:405-423 | the whole table and pipe state after a close |
| `Vfs.Tables.VfsDup` | kernel/fs/vfs.cpp:525-543 | the whole state after dup |
| `Vfs.Tables.VfsDup2` | kernel/fs/vfs.cpp:545-567 | the whole state after dup2 |
| `Vfs.Tables.VfsFcntl` | kernel/fs/vfs.cpp:569-605 | the whole state after every fcntl command |
| `Vfs.Tables.PipeCreate` | kernel/fs/pipe.cpp:121-177 | the whole state after pipe creation, failed ones included |
| `Vfs.Tables.VfsRead` | kernel/fs/vfs.cpp:425-462 | the whole state, result and bytes of a read, on every kind of node |
| `Vfs.Tables.VfsWrite` | kernel/fs/vfs.cpp:464-494 | the whole state and result of a write, on every kind of node |
| `Vfs.Tables.PipeVnodeRead` | kernel/fs/pipe.cpp:13-33 | the byte loop removes and returns the bytes at the front of the ring |
| `Vfs.Tables.PipeVnodeWrite` | kernel/fs/pipe.cpp:35-59 | the byte loop appends the bytes that fit |
| `Pipes.PutAppends` | kernel/fs/pipe.cpp:35-59 | writing appends to what waits and keeps head = (tail + count) mod capacity |
| `Pipes.TakeRemoves` | kernel/fs/pipe.cpp:13-33 | reading removes from the front |
| `PipeRuns.HoldersUpdate` | kernel/fs/vfs.cpp:331-567 | changing one descriptor changes the number of holders of an end by that descriptor |
| `PipeRuns.BootedInv` | kernel/fs/pipe.cpp:90-119 | the counts are exact at boot |
| `PipeRuns.UnusedUnreferenced` | kernel/fs/pipe.cpp:61-88 | a slot not in use is referenced by no open descriptor, so reuse never aliases |
| `PipeRuns.HolderCounts` | kernel/fs/pipe.cpp:61-88 | the pipe of an open end is in use with that end open and counted |
| `PipeRuns.CloseKeepsInv` | kernel/fs/vfs.cpp:405-423 | close keeps reference counts exact |
| `PipeRuns.Dup2KeepsInv` | kernel/fs/vfs.cpp:545-567 | dup2 keeps reference counts exact |
| `PipeRuns.FcntlKeepsInv` | kernel/fs/vfs.cpp:569-605 | fcntl keeps reference counts exact: its flag arithmetic cannot turn a read end into a write end |
| `PipeRuns.CreateKeepsInvIff` | kernel/fs/pipe.cpp:121-177 | pipe creation keeps the counts exact if and only if its flags lack O_WRONLY or there is no free pipe or no two closed descriptors |
| `PipeRuns.CreatesIff` | kernel/fs/pipe.cpp:121-177 | a pipe is created if and only if a pipe is free and two descriptors from 3 on are closed |
| `PipeRuns.StepKeepsInv` | kernel/fs/vfs.cpp:331-605 | every operation keeps reference counts equal to the number of open descriptors on each end |
| `PipeRuns.RunKeepsInv` | kernel/fs/vfs.cpp:331-605 | the same along whole runs |
| `PipeRuns.StepFifo` | kernel/fs/pipe.cpp:13-59 | what waits and is accepted is what is delivered and waits, for every operation |
| `PipeRuns.Fifo` | kernel/fs/pipe.cpp:13-59 | along any run a pipe delivers its bytes in order, losing and inventing none |
| `PipeRuns.ZeroMeansEnded` | kernel/fs/pipe.cpp:19-24 | a read of at least one byte returns 0 only when the pipe is empty and its write end closed |
| `PipeRuns.StepKeepsEnded` | kernel/fs/pipe.cpp:13-88 | an ended pipe stays ended under every operation that does not recycle it |
| `PipeRuns.EndIsPermanent` | kernel/fs/pipe.cpp:13-88 | after that every later read returns 0, along any run |
| `DescriptorLaws.DupCopies` | kernel/fs/vfs.cpp:525-543 | a duplicate has the node, offset and flags of its original and takes the lowest closed descriptor |
| `DescriptorLaws.Dup2Copies` | kernel/fs/vfs.cpp:545-567 | dup2 makes one descriptor a copy of the other, whatever it was, and touches no third |
| `DescriptorLaws.DupFdCopies` | kernel/fs/vfs.cpp:574-583 | F_DUPFD copies to the lowest closed descriptor from its argument on |
| `DescriptorLaws.CloseThenOpen` | kernel/fs/vfs.cpp:331-423 | a closed descriptor cannot be closed again, and the next open that finds no lower one gets it |
| `DescriptorLaws.OffsetsPart` | kernel/fs/vfs.cpp:425-543 | reading through a duplicate does not move the original |
| `DescriptorLaws.TransfersMove` | kernel/fs/vfs.cpp:425-494 | a read or write through one descriptor moves that offset by what it returned, if positive, and nothing else |
| `DescriptorLaws.GetFdAnswersSet` | kernel/fs/vfs.cpp:584-594 | F_GETFD answers what F_SETFD set, and no other flag changes |
| `DescriptorLaws.GetFlAnswersSet` | kernel/fs/vfs.cpp:595-601 | F_GETFL answers the two bits F_SETFL may set as they were set, and all others as they were |
| `DescriptorLaws.FcntlRefuses` | kernel/fs/vfs.cpp:569-605 | closed descriptors, unknown commands and places outside the table are refused without effect |
| `DescriptorLaws.PipeEnds` | kernel/fs/pipe.cpp:121-177 | the two descriptors of a new pipe were closed, and are the two ends of one unused pipe |
| `DescriptorLaws.PipeDelivers` | kernel/fs/pipe.cpp:13-177 | create a pipe, write, read: what comes out is what went in |
| `DescriptorLaws.ReadAnswers` | kernel/fs/pipe.cpp:13-33 | with exact counts a read delivers what waits as far as it was asked for; of an empty pipe it answers 0 if and only if no open descriptor leads to the writing end, and EAGAIN otherwise |
| `DescriptorLaws.WriteAnswers` | kernel/fs/pipe.cpp:35-59 | a write accepts what fits, and answers EPIPE if and only if no open descriptor leads to the reading end |
| `DescriptorLaws.WrongEndRefuses` | kernel/fs/vfs.cpp:425-494 | reading the writing end or writing the reading end fails without effect |
| `DescriptorLaws.GivenBackIff` | kernel/fs/pipe.cpp:61-88 | a pipe is given back by a close if and only if it was the last open descriptor that led to it |
| `Checksum.Ipv4Checksum` | kernel/net/ipv4.cpp:14-32 | the two loops compute the complement of the folded word sum, in a 32-bit accumulator; the folding loop terminates |
| `Checksum.Fold` | kernel/net/ipv4.cpp:27-29 | folding keeps the sum modulo 65535 and maps only 0 to 0 |
| `Checksum.StoredChecksumVerifies` | kernel/net/ipv4.cpp:14-32 | storing the checksum of a buffer, of any length, in its zeroed field at an even offset makes the buffer check to 0 |
| `Checksum.ChecksumIsRfc1071Iff` | kernel/net/ipv4.cpp:14-32 | the value is the one RFC 1071 defines if and only if the carries lost past 32 bits are a multiple of 65535 and do not leave 0 of a sum that is not |
| `Checksum.ShortIsRfc1071` | kernel/net/ipv4.cpp:14-32 | it is for every buffer of up to 131074 bytes |
| `Checksum.LongIsNotRfc1071` | kernel/net/ipv4.cpp:14-32 | it is not for 131076 bytes of 0xFF |
| `Checksum.WordSumStore` | kernel/net/ipv4.cpp:14-25 | storing a word in a zeroed even-aligned field adds it to the sum |
| `Checksum.StoredInNetworkOrder` | kernel/net/ipv4.cpp:14-32 | byte order does not matter: the value of RFC 1071 over little-endian words, stored low byte first, is the one over big-endian words, an odd last byte padded with 0 behind it, stored high byte first |
| `Packets.SwapTwice` | kernel/net/ethernet.hpp:12-26 | swapping bytes twice is the identity |
| `Packets.IpHeaderReads` | kernel/net/ipv4.cpp:34-121 | the header the send side builds is accepted by the receive side, field by field |
| `Packets.DatagramReads` | kernel/net/udp.cpp:58-124 | the datagram the send side builds reads back |
| `Packets.RoundTrip` | kernel/net/udp.cpp:58-124 | a frame sent by udp_send and received by the addressed host reaches the port's binding with exactly the payload, source address and source port, for every payload of 0 to 1400 bytes, the Ethernet padding removed |
| `Packets.FrameReads` | kernel/net/ethernet.cpp:10-31 | bytes 0 to 5 of a frame are the destination address, 6 to 11 the source, then the type, the payload, and zeros up to 60 bytes |
| `Packets.SentTo` | kernel/net/ipv4.cpp:34-81 | a frame is sent if and only if the payload has at most 1400 bytes and the next hop is resolved; it starts with six 0xFF for a broadcast, the address of the destination when it is on the local net, and the gateway's otherwise, followed by the sender's own |
| `Packets.SentFields` | kernel/net/udp.cpp:58-97 | version, lengths, id, flags, time to live, protocol, addresses, ports and payload of the frame sent, byte by byte |
| `Packets.PseudoHeaderReads` | kernel/net/udp.cpp:76-90 | the fields of the pseudo-header |
| `Packets.LocalIff` | kernel/net/ipv4.cpp:45-48 | a destination is on the local net if and only if it agrees with the own address in every bit of the mask |
| `Packets.DeliveredIff` | kernel/net/udp.cpp:99-124 | which frames are delivered, to which handler, with what source and which bytes, told from the bytes of the frame alone |
| `Packets.Read16Is` | kernel/net/ethernet.hpp:12-26 | 16-bit fields are read high byte first |
| `Packets.UdpChecksumVerifies` | kernel/net/udp.cpp:73-95 | the UDP checksum over pseudo-header and datagram verifies as RFC 768 asks, also when it is sent as all ones |
| `Packets.OnesForZeroIff` | kernel/net/udp.cpp:73-95 | sending a zero checksum as all ones still verifies if and only if the accumulated sum is not 0xFFFFFFFF |
| `Network.Net.EthernetSend` | kernel/net/ethernet.cpp:10-31 | the frame: destination address, own address, type, payload and padding to 60 bytes (`FrameReads`) |
| `Network.Net.Ipv4Send` | kernel/net/ipv4.cpp:34-81 | the packet in its frame, and the next packet id |
| `Network.Net.UdpSend` | kernel/net/udp.cpp:58-97 | the frame for a datagram |
| `Network.Net.UdpBind` | kernel/net/udp.cpp:26-46 | exactly one port's handler changes, and no port is ever bound twice |
| `Network.Net.UdpUnbind` | kernel/net/udp.cpp:48-56 | exactly one port's binding goes |
| `Network.Net.UdpHandlePacket` | kernel/net/udp.cpp:99-124 | what is delivered to which handler |
| `Network.Net.Ipv4HandlePacket` | kernel/net/ipv4.cpp:83-121 | which packets are dropped, and what the others lead to; `Beyond` where the announced payload ends behind the packet |
| `Network.Net.EthernetHandlePacket` | kernel/net/ethernet.cpp:33-49 | what a frame leads to, from its first byte on |
| `Packets.HandedOnInsideIff` | kernel/net/ipv4.cpp:111-120 | the bytes a handler is told to read lie inside the packet if and only if its total length is at least the length of its header; the difference is cut to 64 bits |
| `Packets.DeliveredInside` | kernel/net/udp.cpp:99-124 | whatever a UDP handler gets is a slice of the frame, for every frame |
| `Network.OneChanged` | kernel/net/udp.cpp:26-56 | changing one slot changes the binding of one port |
| `Memory.Memcpy` | kernel/lib/string.cpp:28-43 | the destination ends up with the bytes the source had whenever the copy goes down, between buffers, or between disjoint ranges |
| `Memory.Memmove` | kernel/lib/string.cpp:45-64 | the destination ends up with the bytes the source had for every overlap and length |
| `TcpStream.Endpoint.Recv` | kernel/net/tcp.cpp:140-162 | returned bytes followed by what still waits are what waited |
| `TcpStream.Endpoint.Deliver` | kernel/net/tcp.cpp:217-221 | a payload is appended if all of it fits and dropped otherwise |
| `TcpStream.Stream` | kernel/net/tcp.cpp:140-221 | along any run of one open socket, bytes returned followed by bytes waiting are the bytes accepted |
| `TcpStream.ReturnedIsPrefix` | kernel/net/tcp.cpp:140-221 | what reads return is a prefix of the payloads that fitted, in arrival order |
| `Frames.Allocator.constructor` | kernel/mm/pmm.cpp:12-30 | exactly the frames below 3584 are used, and counted |
| `Frames.CountTrailingZeros` | kernel/mm/pmm.cpp:36 | the lowest set bit of a non-zero word |
| `Frames.BitsSet` | kernel/mm/pmm.cpp:37 | setting a bit of a word marks one frame used and changes no other |
| `Frames.Allocator.AllocFrame` | kernel/mm/pmm.cpp:32-44 | the lowest free frame is taken and counted, with none free nothing changes; the answer 0 means success exactly when frame 0 was free |
| `Frames.Allocator.AllocContiguousFrames` | kernel/mm/pmm.cpp:46-71 | the lowest-starting run of the wanted length is taken; failure means no such run exists |
| `Frames.Allocator.FreeFrame` | kernel/mm/pmm.cpp:73-86 | exactly that frame becomes free, and the counter follows |
| `Frames.Allocator.Stats` | kernel/mm/pmm.cpp:88-92 | the counter equals the number of used frames |
| `Frames.CountUpdate` | kernel/mm/pmm.cpp:37-38 | the count changes by the one frame that changes |
| `FrameRuns.Perform` | kernel/mm/pmm.cpp:32-86 | the allocator's calls take the steps of the runs |
| `FrameRuns.StepKeepsMarked` | kernel/mm/pmm.cpp:32-86 | what an allocation gives out was out nowhere, whatever addresses were freed before |
| `FrameRuns.RunsKeepMarked` | kernel/mm/pmm.cpp:32-86 | in every state of every run all frames that are out are marked used |
| `FrameRuns.StepKeepsExactIff` | kernel/mm/pmm.cpp:73-86 | the bitmap stays exactly the kernel's frames and those that are out unless an address below frame 3584 is freed |
| `FrameRuns.RunsKeepExact` | kernel/mm/pmm.cpp:12-86 | the same along whole runs, and address 0 is then never a frame given out |
| `FrameRuns.FrameZeroOnlyAfterFree` | kernel/mm/pmm.cpp:32-86 | in every run frame 0 stays in use, and is never given out, until an address of frame 0 is freed |
| `FrameRuns.StepKeepsZero` | kernel/mm/pmm.cpp:32-86 | a step frees frame 0 exactly when it frees an address of it, and does not give it out while it is in use |
| `FrameRuns.FrameZeroLooksLikeFailure` | kernel/mm/pmm.cpp:32-44 | after freeing frame 0, allocation takes it and returns the address that also means failure |
| `FrameRuns.FreeingRestores` | kernel/mm/pmm.cpp:46-86 | freeing the frames of a run one by one gives back exactly the bitmap from before |
| `FrameRuns.CountIsSize` | kernel/mm/pmm.cpp:88-92 | the count is the size of the set of used frames |
| `Lines.Turn` | kernel/gui/gfx.cpp:149-157 | a turn moves exactly one step along the longer axis and stays within half a pixel of the segment |
| `Lines.CloseBounds` | kernel/gui/gfx.cpp:139-159 | the shorter axis never runs past its end and reaches it exactly when the longer one does |
| `Lines.TakeTurn` | kernel/gui/gfx.cpp:149-157 | err = (b + 1) dx - (a + 1) dy is kept, and no operation leaves the range of int |
| `Lines.OnePoint` | kernel/gui/gfx.cpp:149-157 | the point after k turns is determined |
| `Lines.LineFitsIff` | kernel/gui/gfx.cpp:139-159 | every operation of every turn stays in the range of int if and only if the extents meet a condition on them and their greatest common divisor: the offsets a line meets are the multiples of the divisor within half of the longer side |
| `Lines.LimitLines` | kernel/gui/gfx.cpp:139-159 | the line from (0, 0) to (0, 2^30) stays in range, that to (2^30, 0) does not |
| `Lines.MultipleMet` | kernel/gui/gfx.cpp:149-157 | each of those multiples is met by a point before the end of the line |
| `Lines.Bezout` | kernel/gui/gfx.cpp:139-159 | the divisor divides both extents and is a combination of them |
| `Lines.DrawLine` | kernel/gui/gfx.cpp:139-159 | on every line whose extents fit: terminates and plots exactly max(dx, dy) + 1 points, from the first end to the second, each within half a pixel of the segment, without leaving the range of int |
| `Lines.DrawPixel` | kernel/gui/gfx.cpp:43-57 | blends one pixel, and only inside the picture |
| `Lines.MixBetween` | kernel/gui/gfx.cpp:25-29 | a blended channel lies between the two it blends |
| `Lines.BlendEnds` | kernel/gui/gfx.cpp:11-13 | an opaque colour becomes the pixel, a transparent one leaves it |
| `Lines.BlendChannels` | kernel/gui/gfx.cpp:15-29 | a blended pixel is opaque, and each of its channels is the mix of the same channel of the two colours |
| `Lines.MixIs` | kernel/gui/gfx.cpp:25-27 | a mix is the weighted mean of the two, rounded down |
| `Lines.OpaqueDrawn` | kernel/gui/gfx.cpp:43-57 | after drawing points in an opaque colour every one of them inside the picture has that colour and all other pixels are as before |
| `UserStack.PushStrings` | kernel/loader/stack.cpp:50-65 | the strings with their NULs lie one after the other below the top, and the pointers lead to them |
| `UserStack.WriteWords` | kernel/loader/stack.cpp:97-119 | count, pointers and auxiliary vector are stored upward from the final stack pointer |
| `UserStack.SetupStack` | kernel/loader/stack.cpp:23-122 | memory and stack pointer are as the layout says; 0 and no effect without a binary or arguments |
| `UserStack.LayoutFits` | kernel/loader/stack.cpp:45-97 | the returned pointer is 16-byte aligned, inside the stack, and the words end below the strings |
| `UserStack.StringsApart` | kernel/loader/stack.cpp:50-65 | the strings do not overlap |
| `UserStack.ParsesBack` | kernel/loader/stack.cpp:23-122 | a program reading upward from the returned pointer finds the argument count, every argument and environment string intact, and the auxiliary vector up to AT_NULL |
| `UserStack.AuxValues` | kernel/loader/stack.cpp:71-88 | what a program finds under each key of the auxiliary vector: program headers, their size and number, page size, entry point, user and group, seed and name, with the values put in for fields that are zero |
| `UserStack.FindsAux` | kernel/loader/stack.cpp:23-122 | a program that reads its stack finds these values, under AT_EXECFN a pointer to its own name and under AT_RANDOM one to the 16 seed bytes |
| `UserStack.DefaultsRead` | kernel/loader/stack.cpp:15-56 | a program started without an environment finds the four default strings in it |
| `Paths.NormalizePath` | kernel/fs/vfs.cpp:133-190 | the buffer holds the normalised path and its NUL; a long relative path is cut at the 255 bytes the combining buffer takes; which path that is: `NormalizeIs` |
| `Paths.NormalizeIs` | kernel/fs/vfs.cpp:133-190 | where nothing is cut the output is the drive prefix and the components of the path, backslashes read as slashes, behind those of the current directory if the path is relative |
| `Paths.NormalizeIsPrefix` | kernel/fs/vfs.cpp:133-190 | where a buffer cuts, the output is a prefix of that path, but for a slash at its end |
| `Paths.NormalizedComponents` | kernel/fs/vfs.cpp:133-190 | the components of the output are those meant, where nothing is cut |
| `Paths.NormalizeIsNormal` | kernel/fs/vfs.cpp:133-190 | the output is rooted at `/` or `X:/`, without backslash, doubled slash or slash at the end, and fits the buffer |
| `Paths.NormalizeIdempotent` | kernel/fs/vfs.cpp:133-190 | normalising twice is normalising once, for every path whose normal form is determined, every buffer of at least four bytes and every current directory |
| `Paths.FixedIffNormal` | kernel/fs/vfs.cpp:133-190 | the paths that are left alone are exactly the normal ones that fit |
| `Paths.StringsEqual` | kernel/lib/string.cpp:97-108 | zero exactly when the first n characters agree |
| `Paths.ChooseMount` | kernel/fs/vfs.cpp:256-281 | the first mount of maximal length among those that accept the path |
| `Paths.AcceptsIffComponents` | kernel/fs/vfs.cpp:262-280 | for normal paths a mount accepts exactly when its components are a prefix of the path's |
| `Paths.BestHasMost` | kernel/fs/vfs.cpp:256-281 | the components of the chosen mount start the path, and every other mount whose components do starts the chosen one |

## Left out

- Disk errors: sector reads and writes succeed; the driver often ignores failures.
- FatDirOps.VnodeLookup: directories without long-name entries, so a file cannot be found under its long name; neither
  the kernel nor the image builder writes any, and the source's name buffer may be read before it is filled.
- FatDirOps.VnodeRemove: with long-name entries about, only non-empty names; the source never assembles a long name there,
  and its empty buffer answers to the empty name.
- The short entry of a long name: remove deletes only that entry.
- fat32_vnode_readdir: it enumerates the entries lookup scans.
- FatDirOps.RemovedIsStep: the entry removed leads to the file's or directory's own chain, so it is not `.` or `..`.
- FatRuns.RunAll: every call finds its file anew, as after opening it; nodes kept open across calls are not modelled, nor
  are creations under names 8.3 cannot hold.
- ImageSession.BuildAndRun: names that another entry of the directory carries too are left out of the map.
- Two nodes open on one file: each has its own size.
- The memory behind nodes (`kmalloc`), the name stored in a node, permissions.
- File and directory times, which are always written as zero.
- VnodeRead: the result is an `int` in the source, so sizes are below 2^31.
- RecordSize: a file size of 2^32 and more is cut in the directory entry, as in the source, and kept in the node.
- The image builder's files are not compiled here, and paths are ASCII strings; the `fat_table` dictionary is never read.
- ImageBuilder.BuildImage: paths without any part raise an error in the source and are excluded, and so are file maps that
  overflow the data area or a directory's single cluster.
- The loader's direct change of the current process, `process_execve`, and the names of processes.
- Registers after fork: the child gets the parent's saved context, as in the source.
- Scheduler.Kernel.WaitPass: one pass of `process_waitpid`; the halt between passes is a sequence of other events.
- Page tables: `cr3` of a process is not modelled.
- Events interleave between kernel operations, not inside them.
- Vfs.Tables.VfsRead: on nodes other than pipes the result is a parameter.
- Vfs.Tables.VfsWrite: on nodes other than pipes the result is a parameter; `vfs_open` is opening a descriptor on such a node.
- Null-pointer arguments, which the code answers with an error code.
- The standard streams' drivers.
- ARP, ICMP and the TCP state machine: Ipv4Send takes the ARP table at the end of its polling loop; TCP sockets are modelled
  as far as their receive buffer. A segment that does not fit is dropped and acknowledged all the same, and what is still
  buffered when the peer closes can no longer be read.
- Network.Net.Ipv4HandlePacket: what a handler does with bytes behind the packet; the outcome there is `Beyond`.
- Network.Net.EthernetHandlePacket: the ARP table, which ARP frames update.
- Memory.Memcpy: says nothing about copying up onto itself, which reads bytes already overwritten.
- Lines.DrawLine: the target picture is given; the fallback to the frame buffer is not modelled.
- UserStack.SetupStack: the stack memory is one array, addressed from its bottom.
- Paths.NormalizePath: buffers of fewer than four bytes, and relative paths for which the source's result depends on an
  uninitialised byte (`Determined` says which).
- Partitions.PartitionProbe: reading a GUID partition table; the outcome is `Guid` where the source reads one, and the source
  goes on to the boot record if it finds none in it. Labels, and the limit on the number of partitions of all drives.
- FatWalk.ResolveRelative: the walk is over one FAT volume; what `vfs_resolve_path` does before it, normalising the path and
  choosing the mount, is proved by itself (`Paths`) and not joined to it.
- ImageWalk.BuildWalkRead: files that are stored under the same name as another file of their directory.
- Packets.SentTo: hardware addresses of six bytes.
- Drive mounts and mounting itself.
- Interrupts, port I/O, memory-mapped devices, shells, windows, fonts, sockets, DHCP and DNS.
