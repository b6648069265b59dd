# Verified models of the file system, the train crossing and the vector store

Four parts of the repository are modelled here, each as the program it is: data changed step by step by
methods, functions that say what each method computes, and lemmas about those functions over every input,
every run or every reachable state.

## The FAT file system (`p3`)

An image is a flat sequence of bytes. A `Disk` object holds those bytes and the allocation table that the
programs keep in memory; its methods follow chains, find free blocks, search and lengthen directories, create
subdirectories, and write blocks, table words and entries. `Disk.Coherent` says that the table in memory equals
the one in the image; every method keeps it, so the in-memory table is a faithful write-through cache.

The functions of `Volumes` say what the methods compute on a volume, that is the table together with the data
blocks. `Images.VolumeOf` reads a volume out of an image. Where the C code says something about the image, the
claim goes through that function, so the byte offsets, the big-endian words and the boundaries of the table are
part of every claim.

The code relies on a heap shape that it never checks. `Layouts.WellFormed` states it: a map registers each chain's
start block with its blocks, its kind, the directory slot that refers to it and its depth. Chains are complete,
off the metadata blocks and pairwise disjoint; each entry in use owns exactly one of them; the directories form a
tree. The shape is a precondition of the programs, and every operation is shown to keep it, also when it fails for
lack of space. `Examples.FreshIsWellFormed` exhibits a volume that has it.

Three facts about the programs are worth knowing:

* `diskput` never looks for an entry of the same name. If one comes before the first unused slot, `diskget` goes
  on returning the old file; if it comes after, the new file hides it. `PutGet.PutThenGetIff` has the exact condition
  for the round trip, and `PutGet.PutPreservesIff` the one for what stays as it was, both in terms of the volume
  before the put. Entries behind an unused slot exist only in volumes that `diskput` did not make:
  `Hiding.PutKeepsNoneHidden` shows that it never makes one, so that from a volume without holes, an empty one for
  instance, every sequence of puts preserves everything (`Histories.EveryHistoryPreservesIff`).
  `Examples.HoleLetsPutHide` has a volume on which a put does hide a file.
* The number of blocks is computed as `(size + bs - 1) / bs` in 32 bits. Close to 4 GiB the sum wraps around and
  the file is given one block, with every sign of success (`Examples.HugeFileIsCut`). The round trip holds
  exactly when `length + bs - 1 < 2^32`.
* When the directory cannot be lengthened, the blocks already taken for the file stay taken
  (`Accounts.PutFileAccounts`, and `Examples.FailedPutKeepsBlocks` for a case). On failure the model claims that
  nothing that existed has changed, and says how many blocks are left; it does not claim a rollback, for there is
  none. `PathAccounts.DiskPutAccounts` adds this up over a whole path.

## Search and the thread pool (`vecdb`)

`TopK` and `Search` model the sorted insertion, the scan and the merge. The reference is `IsTopK`: the best `k` of
a set of hits by score descending, then index ascending, which determines the list uniquely. `Pools` is the pool
as a state machine with any number of workers, one caller, any number of batches and spurious wakeups; reading
`fn` and `args[i]` without the lock is a step of its own, and the invariant shows it always reads the batch that it
claimed from. `ThreadPool` keeps the program's fields and arrays and has one method for each critical section, which
takes exactly one step; its `RunBatch` is `pool_run` under an arbitrary scheduler. `ParallelSearch` composes the two:
for every interleaving the parallel search, from partition to merge, returns what the sequential one does.

## The train crossing (`p2`)

`Trains` is the dispatcher and the train threads as a state machine, one critical section a step, with spurious
wakeups. `Inv` holds in every reachable state: one train at a time holds the track, `track_busy` says whether one
does, the four queues hold exactly the ready trains, `crossed` counts the trains that have left, and nobody sleeps
through a grant. `TrainProgress` has progress and the bounds on being passed over. `Crossing` is the shared data as
the program has it, with linked queues; each method takes exactly one step of the machine.

## The `.vdb` store (`vecdb`)

`VdbFormat` and `VdbCodec` are the file: header, vectors, length-prefixed payloads, weights. A float is four opaque
bytes, and the embedding is any deterministic function. `VdbData` is the store in memory with its doubling arrays,
`Commands` has the commands `add`, `addfile` and the interactive session over it, and `VdbIndex` proves that the
three leave byte-identical files. `Ingest` is the tokenizer and the paragraph splitter.

The store's documentation says that all integers in the file are big-endian; that holds for the integers, while
floats are in host order, as the code writes them. Weights are lost when a store with weights and no records is
written and loaded again, and a store of dimension zero comes back with weights: `VdbCodec.RoundTripIff` gives the
exact condition. The same lost weights are the one place where a cut file still loads:
`VdbCodec.TruncationDetectedIff`.

## Model

| member | source | states |
|---|---|---|
| Bytes.Be32RoundTrip | vecdb/src/util.c:41-66 | reading back a written 32-bit word gives it, for every word |
| Bytes.Be64RoundTrip | vecdb/src/util.c:48-73 | the same for 64-bit words |
| Bytes.BigEndian | vecdb/src/util.c:36-57 | written words are worth their value, the highest byte first |
| Bytes.ReadsBigEndian | vecdb/src/util.c:59-73 | reading two, four or eight bytes gives what they are worth, the highest byte first |
| Bytes.CStringStops | vecdb/src/store.c:456-457 | a C string ends at its first zero byte, whatever follows |
| FatChain.ChainIsAcyclic | p3/sfs_common.c:144-158 | a chain that reaches the end mark visits no block twice |
| FatChain.FollowIsWhole | p3/sfs_common.c:144-158 | the cap of block_count never cuts a chain short: a pigeonhole argument |
| FatChain.FreeBlocksComplete | p3/sfs_common.c:161-176 | the search finds the needed blocks exactly when the table has that many free words |
| FatChain.FreeBlocksAreFirst | p3/sfs_common.c:161-176 | the blocks found rise, and no free block before the last of them is left out |
| FatChain.LinkIsChain | p3/diskput.c:165-175 | the link loop turns any distinct blocks into one complete chain in their order |
| FatChain.LinkElsewhere | p3/diskput.c:165-175 | linking changes no other word of the table |
| FatChain.LinkTally | p3/diskput.c:165-175 | linking free blocks lowers the free count by their number and leaves the reserved count |
| DirEntries.EntryRoundTrip | p3/sfs_common.c:179-260 | parsing an encoded entry gives the same entry, name and times included |
| DirEntries.EntryBytes | p3/sfs_common.c:216-260 | which byte of a record holds what, zeros and the six 0xFF bytes included |
| DirEntries.EntryFields | p3/sfs_common.c:179-213 | which byte each field is read from, and that the name ends at its first zero or after 30 characters |
| DirEntries.FindInIsFirst | p3/sfs_common.c:345-364 | a lookup gives the first entry in use with that name, and none exactly when there is none |
| DirEntries.PatchedBlockEntries | p3/sfs_common.c:485-501 | writing an entry into a slot changes that entry of the block and no other |
| DirEntries.FindInAfterFill | p3/sfs_common.c:330-371 | after an unused slot is filled, the new name finds it unless a twin comes first, and every other name finds what it found |
| Images.BlockWriteEffect | p3/sfs_common.c:114-126 | writing into a data block changes that block of the volume and nothing else: no other block, no table word, no superblock field |
| Images.TableWriteEffect | p3/sfs_common.c:129-141 | writing a table word changes that word of the volume and nothing else |
| Images.SuperblockBytes | p3/sfs_common.c:33-64 | which bytes the six fields are read from, and that fewer than 512 bytes give none |
| Images.VolumeBytes | p3/sfs_common.c:67-111 | table word b and block b are the bytes at their offsets in the image |
| Volumes.ExtractAfterFill | p3/diskput.c:177-197 | reading filled blocks back gives the data up to what they hold: short last blocks, empty files and exact multiples included |
| Volumes.FilledBlock | p3/diskput.c:177-197 | each block holds its share of the data, byte by byte, and zeros behind the end |
| Volumes.ExtractedBytes | p3/diskget.c:27-47 | what is read from any chain: its blocks' bytes in order, up to the size |
| Volumes.NeedReserves | p3/diskput.c:145-152 | the number of blocks reserved is the least that holds the size, one for an empty file, and one when rounding up overflows |
| Volumes.ReservesOnce | p3/diskput.c:145-152 | there is only one such number |
| Volumes.ResolveWalks | p3/sfs_common.c:374-398 | a path resolves to a directory exactly when there is a walk through first entries of its names that are directories |
| Layouts.WalkIsWhole | p3/sfs_common.c:144-158 | the walk returns each registered chain in full |
| Layouts.FreeIsOffChain | p3/sfs_common.c:161-176 | a free block lies on no registered chain |
| Layouts.IntactKeepsWellFormed | p3/diskput.c:142-232 | a volume whose chains all read the same stays well formed |
| Layouts.StoreKeeps | p3/diskput.c:156-199 | storing data in free blocks keeps well-formedness and every registered chain's entries and bytes, and the new chain is disjoint from all of them |
| Layouts.AppendKeeps | p3/sfs_common.c:454-477 | lengthening a directory by a free block keeps well-formedness; its listing gains only unused entries, and every other chain reads the same |
| Layouts.FreeSlotNone | p3/sfs_common.c:401-442 | no slot is found exactly when every entry of the directory is in use |
| Layouts.FreeSlotSome | p3/sfs_common.c:401-442 | the slot found is the directory's first unused entry, and filling it changes just that one |
| Layouts.FillSlotKeeps | p3/sfs_common.c:485-501 | entering a detached chain in a free slot keeps well-formedness, with the chain registered, and leaves every other chain as it was |
| Files.FindInAfterEnter | p3/sfs_common.c:445-482 | what each name finds after an entry is made, whether the directory was lengthened or not |
| Files.EnterKeepsCompact | p3/sfs_common.c:445-482 | a directory without holes gets none when an entry is made |
| Files.AddEntryKeeps | p3/sfs_common.c:445-501 | making an entry keeps well-formedness and makes no hole; it fails exactly when the directory is full and no block is free, and then changes nothing; the one chain newly registered is that of the entry |
| Operations.FoundIsRegistered | p3/sfs_common.c:330-371 | whatever a lookup finds owns a registered chain of the entry's kind, below that directory |
| Operations.CreateDirKeeps | p3/diskput.c:46-100 | on success and failure well-formedness, every lookup and every file's bytes are kept, and no hole is made; on success the name finds the new, empty directory |
| Operations.CreatedEntry | p3/diskput.c:52-91 | the entry of a new directory, field by field; its block is the first free one |
| Operations.ResolveExtends | p3/sfs_common.c:374-398 | paths that resolved before resolve to the same block after any extending operation |
| Operations.ResolvedIsNotCreated | p3/diskput.c:103-139 | creating a path that already resolves changes nothing and returns the same block |
| Operations.ResolveOrCreateKeeps | p3/diskput.c:103-139 | whatever it returns, well-formedness and all earlier lookups and bytes are kept; on success resolve_dir on the new volume returns the same block |
| Operations.PutFileKeeps | p3/diskput.c:142-232 | on success the new chain is the free blocks found and holds the data, the entry is found unless a twin comes first, and all else reads as before; on failure everything reads as before; well-formedness is kept either way |
| PutGet.PutKeepsWellFormed | p3/diskput.c:235-292 | whatever diskput returns, the volume it leaves is well formed, with every registered chain still there and of the same kind |
| PutGet.DepthGrows | p3/sfs_common.c:374-398 | each component of a path leads one level down, so directories form a tree |
| PutGet.PathIsWalk | p3/diskget.c:100-102 | a path names an entry exactly when there is a walk to a directory that lists it first |
| PutGet.GetIsOfFile | p3/diskget.c:100-112 | diskget returns bytes exactly for a named entry with the file flag, and they are its chain's up to its size |
| PutGet.WayStaysOpen | p3/sfs_common.c:374-398 | entering a file in a directory cannot block the path that leads there |
| PutGet.GetAfterPut | p3/diskget.c:62-123 | after a successful diskput, diskget of the same path returns the part of the data its blocks hold, or what it returned before when a twin comes first |
| PutGet.KeepsAllIff | p3/diskput.c:145-152 | the blocks hold all of the data if and only if length + block size - 1 is below 2^32 |
| PutGet.WrapsToOneBlock | p3/diskput.c:145-152 | when that sum overflows, one block is reserved |
| PutGet.PutThenGetIff | p3/diskput.c:235-292 | put then get is the identity exactly when no twin comes first and the sum does not overflow, or the twin already held these bytes |
| PutGet.HidingSucceeds | p3/diskput.c:235-292 | where the name is taken only behind an unused slot, the put succeeds exactly when the file's own blocks are free |
| PutGet.PutPreservesIff | p3/diskput.c:235-292 | every earlier path keeps its entry and every earlier file its bytes, on success and failure, if and only if it is not the case that the name is taken only behind an unused slot and the file's blocks are free |
| Hiding.EnterKeepsFrontFound | p3/sfs_common.c:401-482 | if every name of a listing is found before its first unused slot, so it is after an entry is made |
| Hiding.CompactHidesNothing | p3/diskput.c:142-232 | in a well-formed volume without holes there is no path under which a put could hide an entry |
| Hiding.CreateDirSettles | p3/diskput.c:46-100 | creating a directory keeps such listings, and names lead to the directories they led to or to an empty one |
| Hiding.PutFileSettles | p3/diskput.c:142-232 | the same for putting a file |
| Hiding.ResolveOrCreateKeepsOpen | p3/diskput.c:103-139 | creating a path keeps all directories below any given one of that kind |
| Hiding.PutKeepsNoneHidden | p3/diskput.c:235-292 | diskput never turns a volume in which no put can hide an entry into one in which a put can |
| Histories.HistoryKeepsWellFormed | p3/diskput.c:235-292 | every volume of any sequence of diskputs, failing ones included, is well formed, and without holes if the first one is |
| Histories.HistoryKeepsNoneHidden | p3/diskput.c:235-292 | if no put could hide an entry in the first volume, none can in any later one |
| Histories.HistoryPreserves | p3/diskput.c:235-292 | from such a volume, whatever can be found at some point of any sequence is found at any later one, with the same bytes |
| Histories.FullStaysSame | p3/diskput.c:235-292 | with no free block no sequence of puts changes anything |
| Histories.EveryHistoryPreservesIff | p3/diskput.c:235-292 | all sequences of puts preserve everything if and only if the first volume has no free block or no entry that a put could hide |
| Histories.EntryAfterPut | p3/diskput.c:201-226 | after a success the path names an entry with the status, name, size, number of blocks and times of the file put, or still the entry of that name that came first |
| Histories.EveryPutIsGotIff | p3/diskget.c:62-123 | at any position of any sequence from such a volume: a file put under a free name is got at the end exactly when its length does not wrap, and a name that was taken still names the same entry |
| Accounts.CountFat | p3/diskinfo.c:4-26 | the three counts are the numbers of free, of reserved and of all other words, and add up to the block count |
| Accounts.AddEntryTally | p3/sfs_common.c:445-482 | making an entry takes one block if the directory is full and none otherwise, succeeds exactly when that many are free, and leaves the reserved count |
| Accounts.PutFileAccounts | p3/diskput.c:142-232 | with n the least number of blocks that hold the file (at least one): put_file succeeds exactly when n and the directory's growth fit in the free blocks, and takes exactly that many; a failure takes n if they are there, and none otherwise |
| Accounts.CreateDirAccounts | p3/diskput.c:46-100 | the same for a new directory: one block, and one more if its parent is full; a failure leaves no block free |
| PathAccounts.ResolveOrCreateAccounts | p3/diskput.c:103-139 | creating a path succeeds exactly when no file is in the way and the missing directories fit, one block each and one more if the first one's parent is full, and takes exactly those |
| PathAccounts.DiskPutAccounts | p3/diskput.c:235-292 | with that same n: when a whole diskput succeeds, how many blocks it takes, and how many are left free when it fails |
| Examples.FreshIsWellFormed | p3/sfs_common.c:33-97 | a concrete empty file system is well formed |
| Examples.TakenNameDefeatsPut | p3/diskput.c:142-232 | a concrete volume on which diskput of a taken name succeeds and diskget returns the old file |
| Examples.HugeFileIsCut | p3/diskput.c:145-152 | every file of 2^32 - 1 bytes put on the concrete empty file system comes back as its first 64 bytes |
| Examples.HoleLetsPutHide | p3/diskput.c:142-232 | a concrete volume with an unused slot before an entry: a put of that name succeeds and the old file is no longer found |
| Examples.FailedPutKeepsBlocks | p3/diskput.c:156-226 | a concrete full directory with exactly enough free blocks for the file: the put fails and no block is left free |
| Examples.FreshHidesNothing | p3/diskput.c:142-232 | in the concrete empty file system no put can hide an entry |
| Examples.FreshImageIsSound | p3/sfs_common.c:33-97 | concrete bytes of an image that satisfies everything the programs rely on |
| Disks.Disk.ReadBlock | p3/sfs_common.c:100-111 | the bytes read are the volume's block |
| Disks.Disk.WriteBlock | p3/sfs_common.c:114-126 | the stored volume changes in that block only |
| Disks.Disk.WriteFatEntry | p3/sfs_common.c:129-141 | the stored volume changes in that table word only |
| Disks.Disk.WriteDirEntry | p3/sfs_common.c:485-501 | the stored volume changes in that entry only |
| Disks.Disk.FollowChain | p3/sfs_common.c:144-158 | the output holds the chain, up to the cap, and the count is its length |
| Disks.Disk.FindFreeBlocks | p3/sfs_common.c:161-176 | it succeeds exactly when there are enough free blocks, and returns the first ones |
| Disks.Disk.DirFind | p3/sfs_common.c:330-371 | the first entry in use with that name in the directory's listing, or none |
| Disks.Disk.DirFindFreeSlot | p3/sfs_common.c:401-442 | the place of the directory's first unused entry, or none |
| Disks.Disk.LastOfChain | p3/sfs_common.c:456-461 | the uncapped walk ends, at the chain's last block |
| Disks.Disk.GrowDirectory | p3/sfs_common.c:456-473 | table in memory, table in the image and zeroed block together make the lengthened volume, and memory and image agree again |
| Disks.Disk.DirGetSlot | p3/sfs_common.c:445-482 | the slot and the volume are those of the specification, and the memory table agrees with the image on every path |
| Disks.Disk.MakeDir | p3/diskput.c:46-100 | the volume and the result are those of CreateDir, about which Operations.CreateDirKeeps speaks |
| Disks.Disk.ResolveDir | p3/sfs_common.c:374-398 | the loop returns what following the components one by one gives, and it is a directory |
| Disks.Disk.ResolveOrCreateDir | p3/diskput.c:103-139 | the volume and the result are those of ResolveOrCreate; the volume stays well formed and a returned block is a directory |
| Disks.Disk.LinkBlocks | p3/diskput.c:165-175 | memory and image end up with the same linked table |
| Disks.Disk.WriteBlocks | p3/diskput.c:177-197 | the blocks end up holding the data, each padded with zeros |
| Disks.Disk.BlocksFor | p3/diskput.c:145-152 | the least number of blocks that hold the size, and at least one |
| Disks.Disk.StoreFile | p3/diskput.c:142-232 | the volume and the result are those of PutFile, with the memory table equal to the image's on every path; Accounts.PutFileAccounts and Histories.EntryAfterPut say what that is |
| Disks.Disk.Put | p3/diskput.c:265-285 | diskput from the parsed path on, tied to the function that PutGet speaks about |
| Disks.Disk.ExtractFile | p3/diskget.c:4-59 | the bytes written out are the first file_size bytes of the chain |
| Disks.Disk.Get | p3/diskget.c:83-112 | diskget from the parsed path on, including not found and not a file |
| Programs.ReadFat | p3/sfs_common.c:67-97 | it fails exactly when the image ends before the table does; otherwise the table is the one stored in the image |
| Programs.PathOfIsCut | p3/diskput.c:265-265 | of a destination the first 32 components count |
| Programs.FsOpen | p3/sfs_common.c:5-30 | it fails exactly when there is no superblock or the image ends before its table; otherwise memory and image agree |
| Programs.DiskPutMain | p3/diskput.c:235-292 | from image bytes and path string: an image that does not open is left alone; otherwise the new image is sound again and holds the specified volume |
| Programs.DiskGetMain | p3/diskget.c:62-123 | from image bytes and path string to the file's bytes, or nothing, also when the image does not open |
| Programs.PutThenGet | p3/diskget.c:62-123 | the two programs in sequence over raw images, the second one opening what the first left: the data comes back exactly when no entry of the name comes first and the length does not wrap, or the one that comes first held these bytes |
| Paths.SplitPath | p3/sfs_common.c:263-296 | the loop computes Split: empty components dropped, names cut to 30 characters, at most max of them |
| Paths.BuildPath | p3/sfs_common.c:299-327 | the loop computes Build |
| Paths.SplitIsClean | p3/sfs_common.c:263-296 | no component is empty or contains a slash |
| Paths.SplitIsCut | p3/sfs_common.c:263-296 | a smaller maximum keeps the first components and drops the rest |
| Paths.SplitStops | p3/sfs_common.c:269-269 | the path ends at its first zero byte |
| Paths.SplitCutsNames | p3/sfs_common.c:271-285 | a component is what stands between slashes, cut to its first 30 characters |
| Paths.BuiltBytes | p3/sfs_common.c:299-327 | the built path is a slash before each component, and a lone slash for none |
| Paths.SplitJoined | p3/sfs_common.c:263-327 | splitting the built form of clean components returns them |
| Paths.SplitBuildSplit | p3/sfs_common.c:263-327 | split, build, split equals split, for every string and every maximum |
| TopK.TopKUnique | vecdb/src/search.c:6-7 | there is only one top-k list of a set of hits |
| TopK.TopKSize | vecdb/src/search.h:14-17 | its length is the smaller of k and the number of hits |
| TopK.TopKIsSortedPrefix | vecdb/src/search.c:6-7 | it is the prefix of the full sort, by score descending then index ascending |
| TopK.InsertKeepsTopK | vecdb/src/search.c:8-29 | inserting a hit with a larger index than its ties gives the top-k list of the larger set |
| TopK.ShiftIn | vecdb/src/search.c:22-27 | the shifting loop places the hit behind all scores that are not smaller and keeps the rest of the array |
| TopK.TopkInsert | vecdb/src/search.c:8-29 | the k cells at any base hold the inserted list and the other cells are untouched |
| Search.ScoreRow | vecdb/src/search.c:40-46 | the score is the last of the partial sums that start at zero and add, one component after another, the product of query and row |
| Search.ScoreIsOfHit | vecdb/src/search.c:40-46 | a row has exactly one such score, the one recorded in its hit |
| Search.ScanIsBest | vecdb/src/search.c:51-68 | the hits are min(k, count) rows with those scores, by falling score and among equals rising index, and no row left out comes before one of them |
| Search.ScanRange | vecdb/src/search.c:33-49 | the scan loop's array contents are those of Scan |
| Search.ScanIsTopK | vecdb/src/search.c:33-49 | a scan of any range yields the top-k list of the hits of that range |
| Search.VdbSearch | vecdb/src/search.c:51-68 | the hits are the top-k list of all rows, each with its score against the query |
| Search.SearchIsSortedPrefix | vecdb/src/search.c:51-68 | the hits are the first min(k, count) of all hits sorted |
| Search.SearchSize | vecdb/src/search.h:14-17 | min(k, count) hits are returned |
| Search.MakeTasks | vecdb/src/search.c:118-134 | task t covers the t-th range and is given the t-th k cells of the buffer |
| Search.CellsApart | vecdb/src/search.c:106-130 | the cells of two tasks do not overlap and lie inside the buffer |
| Search.RunTask | vecdb/src/search.c:81-86 | a task leaves the top k of its range in its own cells and touches no others |
| Search.BoundsTile | vecdb/src/search.c:118-134 | the ranges end exactly at the last row, for any count and number of threads |
| Search.BoundIs | vecdb/src/search.c:118-134 | range t begins at t times the quotient plus the smaller of t and the remainder |
| Search.TopKOfTopK | vecdb/src/search.c:138-146 | merging a range's own top-k list loses nothing against merging the range |
| Search.MergedIsSequential | vecdb/src/search.c:138-146 | merging the lists in thread order gives the sequential result, ties included |
| Search.Merge | vecdb/src/search.c:138-146 | the merge loops compute that merge in the hits array |
| Search.MergeLocal | vecdb/src/search.c:142-145 | the inner loop inserts one thread's hits in order |
| Pools.InitialInv | vecdb/src/pool.c:51-85 | the new pool satisfies the invariant |
| Pools.StepKeepsInv | vecdb/src/pool.c:21-49 | every step of every thread keeps it: tasks counted, each held by one worker, each run at most once with this batch's function and argument, and nobody waiting without reason |
| Pools.RunKeepsInvThroughout | vecdb/src/pool.c:21-104 | it holds in every state of every run, through any number of batches |
| Pools.FetchFindsTask | vecdb/src/pool.c:38-40 | the read outside the lock finds the batch that the index was claimed from |
| Pools.BatchKeepsTask | vecdb/src/pool.c:87-104 | function and arguments stay until pool_run returns, and it returns only when nothing is active |
| Pools.NothingActiveMeansDone | vecdb/src/pool.c:87-104 | when nothing is active, each task has run exactly once and no worker holds one |
| Pools.PoolRunCorrect | vecdb/src/pool.c:87-104 | from posting to returning, over any interleaving, each index has been run exactly once, on the posted function and argument |
| Pools.StepMakesProgress | vecdb/src/pool.c:21-104 | each step but a spurious wakeup, a post or the shutdown lowers a measure |
| Pools.RunIsBounded | vecdb/src/pool.c:21-104 | so a run without new batches is no longer than the measure at its start and twice its spurious wakeups |
| Pools.NeverStuck | vecdb/src/pool.c:21-132 | while a batch is on or the pool is being torn down, some proper step can be taken |
| Pools.TornDown | vecdb/src/pool.c:110-132 | when nothing but spurious wakeups is possible after pool_destroy, every worker has exited and the caller has joined them |
| ThreadPools.ThreadPool.constructor | vecdb/src/pool.c:51-85 | the new pool is the initial state, with at least one worker whatever is asked for |
| ThreadPools.ThreadPool.BroadcastWork | vecdb/src/pool.c:98-98 | exactly the waiting workers are woken |
| ThreadPools.ThreadPool.WorkerTest | vecdb/src/pool.c:27-36 | the first critical section is one Test step |
| ThreadPools.ThreadPool.WorkerFetch | vecdb/src/pool.c:38-40 | the unlocked read is one Fetch step |
| ThreadPools.ThreadPool.WorkerRun | vecdb/src/pool.c:38-40 | the call of the task is one Run step |
| ThreadPools.ThreadPool.WorkerFinish | vecdb/src/pool.c:42-47 | the last critical section is one Finish step |
| ThreadPools.ThreadPool.PostBatch | vecdb/src/pool.c:87-101 | pool_run up to its wait is one Post step of a batch that is not empty |
| ThreadPools.ThreadPool.CallerRecheck | vecdb/src/pool.c:100-103 | the caller's test is one Recheck step |
| ThreadPools.ThreadPool.Take | vecdb/src/pool.c:21-104 | any enabled step of a running batch, spurious wakeups included, is one step of the machine |
| ThreadPools.ThreadPool.AnyStep | vecdb/src/pool.c:21-104 | while a batch runs there is a thread that can go on without a spurious wakeup |
| ThreadPools.ThreadPool.RunBatch | vecdb/src/pool.c:87-104 | under any schedule with any number of spurious wakeups pool_run returns, every task has run once and its result is in its place; an empty batch returns at once |
| ThreadPools.ThreadPool.BeginDestroy | vecdb/src/pool.c:117-120 | the shutdown is one Destroy step |
| ParallelSearch.ParallelEqualsSequential | vecdb/src/search.h:21-24 | for every run of the pool that carries the batch, every k, thread count and corpus, the merged results equal the sequential hits |
| ParallelSearch.VdbSearchMt | vecdb/src/search.c:88-154 | partition, one pool_run under any schedule, merge: the array and length left are those of the sequential search: the best rows with their scores against the query |
| Trains.SelectSlot | p2/mts.c:304-357 | the queue selected has a train, and none is selected exactly when all four are empty |
| Trains.SelectionRule | p2/mts.c:304-357 | after two grants in a row to a direction the other one goes if it waits; else HIGH goes before LOW; among equals the direction that did not go last goes, and west at the start |
| Trains.InitialInv | p2/mts.c:409-439 | the initial state satisfies the invariant |
| Trains.StepKeepsInv | p2/mts.c:223-270 | every step keeps it: mutual exclusion, track_busy exact, queues exact, crossed exact, no grant slept through |
| Trains.RunKeepsInv | p2/mts.c:442-495 | it holds in every state of every run |
| TrainProgress.StepMakesProgress | p2/mts.c:442-495 | each step but a spurious wakeup lowers a measure |
| TrainProgress.RunIsBounded | p2/mts.c:442-495 | so a run is no longer than the measure at its start and twice its spurious wakeups |
| TrainProgress.SomeoneCanMove | p2/mts.c:223-270 | while the dispatcher waits and not all is done, some train thread can move: no wakeup is lost |
| TrainProgress.NeverStuck | p2/mts.c:442-495 | in every state with something left to do a proper step can be taken |
| TrainProgress.QuietMeansDone | p2/mts.c:442-505 | when only spurious wakeups are possible, all trains have crossed and the dispatcher has finished |
| TrainProgress.GrantRule | p2/mts.c:275-357 | how the train granted compares with any other that waits: priority within its direction, and across directions priority unless two grants in a row went there |
| TrainProgress.CountersTellHistory | p2/mts.c:462-473 | in every run last_direction is the direction granted last and same_dir_count the length of the trailing run of grants to it |
| TrainProgress.GrantsFollowRule | p2/mts.c:442-489 | the same rule over whole runs, in terms of the trains granted before |
| TrainProgress.DirectionIsServed | p2/mts.c:331-339 | while a direction has a train waiting and is not granted, at most two grants happen: one of the next three goes to it |
| TrainProgress.HighIsServed | p2/mts.c:342-353 | a HIGH train with m HIGH trains ahead in its queue is granted by the (2m+2)th grant |
| TrainProgress.LowIsServed | p2/mts.c:275-353 | a LOW train with m LOW trains ahead is granted by the 3(m+H+1)th grant, H counting the HIGH trains of its direction waiting or arriving meanwhile |
| Crossing.Station.constructor | p2/mts.c:409-421 | the shared variables start in the initial state |
| Crossing.Station.Enqueue | p2/mts.c:188-220 | the linked list of the train's queue gains it at the end, and the four lists stay disjoint and acyclic |
| Crossing.Station.LastOf | p2/mts.c:200-207 | the walk along the links ends at the last train of the list |
| Crossing.Station.Dequeue | p2/mts.c:361-370 | the head leaves its list; all else stays |
| Crossing.Station.BestInDirection | p2/mts.c:275-300 | the head of the HIGH queue, else of the LOW queue, else none |
| Crossing.Station.SelectNext | p2/mts.c:304-357 | the head of the queue that the state machine selects, by the rule of Trains.SelectionRule |
| Crossing.Station.Arrive | p2/mts.c:234-245 | joining the queue, signalling and testing is one Arrive step |
| Crossing.Station.Recheck | p2/mts.c:242-245 | a woken train's test is one Recheck step |
| Crossing.Station.Grant | p2/mts.c:457-476 | queue, counters, permission and wakeup end up as in the machine's grant |
| Crossing.Station.DispatchOnce | p2/mts.c:444-489 | one pass of the dispatcher's loop is one Dispatch step |
| Crossing.Station.Leave | p2/mts.c:255-262 | reporting off the track is one Leave step |
| VdbFormat.HeaderRoundTrip | vecdb/src/store.c:34-81 | decoding an encoded header gives every field back |
| VdbFormat.HeaderBytes | vecdb/src/store.c:34-53 | which byte of the header holds what, from the characters of the magic to the zeros at its end |
| VdbFormat.LoadRequires | vecdb/src/store.c:376-393 | only a file with that magic, version 1 and header size 512 loads |
| VdbCodec.LoadOfFile | vecdb/src/store.c:276-479 | what loading a written file returns, for every store in memory |
| VdbCodec.RoundTripIff | vecdb/src/store.c:276-479 | loading gives the written store back if and only if it has no weights without records, and weights if it has records of dimension zero |
| VdbCodec.WeightsWithoutRecordsAreLost | vecdb/src/store.c:398-401 | a concrete store whose weights are written and not loaded again; its file loads the same when they are cut off |
| VdbCodec.PayloadsCutShort | vecdb/src/store.c:427-458 | no strict prefix of a payload region reads as that many payloads |
| VdbCodec.TruncationDetectedIff | vecdb/src/store.c:360-479 | every strict prefix of a written file is rejected if and only if the store does not keep weights of some dimension without records |
| VdbCodec.RegionsTileFile | vecdb/src/store.c:276-302 | the recorded regions lie back to back up to the end of the file and hold what they say |
| VdbCodec.VectorBytesAt | vecdb/src/store.c:317-326 | component j of row i is the four bytes at row i, place j of the vector region |
| VdbCodec.PayloadBytesAre | vecdb/src/store.c:328-341 | the payload region is each payload's length and characters, one after another |
| VdbMemory.VdbData.constructor | vecdb/src/store.c:403-425 | a loaded store has room for exactly its records |
| VdbMemory.VdbData.Add | vecdb/src/store.c:220-259 | one record is appended, through any reallocation; over all additions at most twice as many records are copied as there are |
| VdbMemory.VdbData.Grow | vecdb/src/store.c:224-245 | the new arrays hold the same records and are larger |
| VdbMemory.VdbData.CountDocs | vecdb/src/index.c:34-44 | for each bucket, the number of records whose embedding is not zero there |
| VdbMemory.VdbData.BuildIndex | vecdb/src/index.c:7-64 | each weight is that of the number of records and of how many touch the bucket, and each row its text's embedding with these weights; no weights without records |
| VdbMemory.VdbData.PayloadRegionSize | vecdb/src/store.c:284-286 | the size recorded is the size of the bytes written |
| VdbMemory.VdbData.AppendPayloads | vecdb/src/store.c:328-341 | the loop writes the payload region |
| VdbMemory.VdbData.Write | vecdb/src/store.c:276-358 | the file is the one that the codec lemmas speak about, and memory changes only in the layout fields |
| VdbMemory.VdbData.ReadFile | vecdb/src/store.c:360-479 | the reading passes compute Load, failures included |
| VdbMemory.VdbData.ReadAllPayloads | vecdb/src/store.c:427-458 | the loop fails exactly when a payload is cut short and otherwise returns them all |
| VdbIndex.FileForgetsHistory | vecdb/src/index.c:34-58 | the bytes of an indexed store depend only on its payloads and its kind |
| VdbIndex.DocFreqCounts | vecdb/src/index.c:34-44 | the recursive count is the number of records that touch the bucket |
| VdbIndex.IndexMeans | vecdb/src/index.c:34-58 | the same for stores as values |
| VdbIndex.AddedIsLoaded | vecdb/src/main.c:365-443 | what addfile leaves loads as the old texts and then the new ones, with weights and rows those of the payloads |
| VdbIndex.LoadInMemory | vecdb/src/store.c:360-479 | whatever loads is a proper store in memory |
| VdbIndex.AddEachIsAddfile | vecdb/src/main.c:154-204 | adding one text a command, through the file each time, gives what one batch gives |
| VdbIndex.SessionStep | vecdb/src/repl.c:146-176 | every line keeps: if nothing is unsaved, loading the file gives exactly the memory |
| VdbIndex.SessionLines | vecdb/src/repl.c:57-182 | so it holds after any number of lines |
| VdbIndex.ReplIsAddfile | vecdb/src/repl.c:39-195 | a session with saves anywhere leaves the file that one batch leaves |
| VdbIndex.HistoryIndependence | vecdb/src/main.c:154-443 | the three ways of adding the same texts leave byte-identical files |
| Commands.RunAdd | vecdb/src/main.c:154-204 | load, add, rebuild and write on the object compute CmdAdd; a file that does not load is left alone |
| Commands.IngestText | vecdb/src/main.c:298-363 | the in-place splitter ends, and adds exactly the paragraphs of the text, in order, which Ingest.OneParagraphOnly and Ingest.FirstParagraphThenRest describe |
| Commands.RunAddfile | vecdb/src/main.c:365-443 | the whole command computes CmdAddfile on the paragraphs, writing nothing when there are none |
| CommandLines.SplitLine | vecdb/src/repl.c:76-100 | the pointer loops yield the command word and the argument |
| CommandLines.LineSplits | vecdb/src/repl.c:76-100 | a line made of blanks, a word, a gap and an argument splits into that word and that argument |
| CommandLines.WordsMean | vecdb/src/repl.c:102-179 | quit and exit end the session, add adds its argument, save saves, any other word changes nothing |
| CommandLines.EmptyLine | vecdb/src/repl.c:81-84 | a line of blanks changes nothing |
| Commands.RunRepl | vecdb/src/repl.c:39-195 | the session loop over raw lines, with its dirty flag and its end at quit, computes Repl |
| Ingest.Tokenize | vecdb/src/embed.c:11-36 | the loop computes Tokens |
| Ingest.TokensSplit | vecdb/src/embed.c:11-36 | a delimiter splits the tokens of a text into those of its two sides |
| Ingest.TokenOfRun | vecdb/src/embed.c:11-36 | a run of letters and digits before a delimiter is one token: its first 127 characters, capitals made small |
| Ingest.TokenAtEnd | vecdb/src/embed.c:24-33 | a run at the end of the text is a token, too |
| Ingest.ParagraphsKeepTokens | vecdb/src/main.c:298-363 | the tokens of the paragraphs, in order, are the tokens of the whole text |
| Ingest.ParagraphsAreLines | vecdb/src/main.c:344-350 | no paragraph is empty or contains a line break |
| Ingest.BlanksAreSkipped | vecdb/src/main.c:313-319 | leading spaces, tabs and line breaks belong to no paragraph |
| Ingest.OneParagraphOnly | vecdb/src/main.c:323-350 | a text that starts with a non-blank and has no blank line is one paragraph, its line breaks made spaces |
| Ingest.FirstParagraphThenRest | vecdb/src/main.c:323-350 | one with a blank line is the part before the first one, on one line, and then the paragraphs of what follows |
| Ingest.SkipBlanksAt | vecdb/src/main.c:313-316 | the loop stops at the first character that is not blank |
| Ingest.BlankLineAt | vecdb/src/main.c:327-332 | it says whether nothing but spaces, tabs and returns stands before the next newline or the end, the test in Ingest.FirstParagraphThenRest |
| Ingest.ParaEndAt | vecdb/src/main.c:323-337 | it finds the paragraph's end |
| Ingest.FoldAt | vecdb/src/main.c:344-350 | line breaks of the paragraph become spaces, and nothing else in the buffer changes |
| Ingest.TakeParagraph | vecdb/src/main.c:321-350 | one pass yields the next paragraph and leaves the rest of the buffer as it was |

## Left out

- The shell of `p1`: system calls and a job list.
- Failing I/O and `malloc` returning NULL: the image, the store file and the text file are byte sequences, and reads and writes inside them succeed. The failures modelled are the logical ones: no free block, full directory, name not found, wrong kind, truncated table, truncated or foreign store.
- Images that are not well formed: `follow_chain` and `dir_get_slot` index the table unchecked, so the heap shape is a precondition. Of a corrupt store file only truncation is covered.
- The clock: each time read is a parameter, `clock(i)`. Output, `disklist`, usage messages, `readline`, signals and argument parsing.
- The REPL commands that only print or set k: they change neither the store nor the file.
- `parse_input` of the trains; loading and crossing delays are arbitrary interleaving.
- Float arithmetic: scores are reals combined by arbitrary rounding functions, so there is no NaN; embedding, zero test and weight are arbitrary deterministic functions. `fnv1a`, `tf_accumulate` and the body of `embed_tfidf` are such functions.
- Several threads calling `pool_run` at once: nothing in the repository does.
- A worker that cannot be created (`pool_create`'s cleanup), `vdb_create`, `vdb_open`, statistics and benchmarks.
- The number of blocks recorded in a directory's own entry: the code leaves it at 1 when the directory grows, and nothing reads it for directories.
- Block buffers are sequence values, so the reuse of one buffer is not captured; the inner loop over a block's slots is a method of its own.
- VdbMemory.VdbData.Add: that a full store has fewer than 2^31 records is a precondition, because the doubled 32-bit capacity wraps there and the program writes outside its arrays.
- VdbMemory.VdbData.Grow: the same precondition.
- Commands.RunAdd: room for the additions below 2^31 records, for the same reason.
- Commands.IngestText: the same.
- Commands.RunAddfile: the same.
- Commands.RunRepl: the same.
- The row-major flattening of the vector array: a row is a sequence of floats.
