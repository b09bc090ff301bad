# Index-OS kernel cores in Dafny

A model of the stateful cores of Index-OS, a freestanding ARM64 kernel, and
proofs about them.  Every state machine is a value with one function per
lock-held section or call; runs are sequences of such steps; theorems are about
every run or every input.  Beside the specification functions stand classes
that update fields, arrays and sequences in place with the loops of the source,
each method proved equal to its specification.

| files | source | subject |
|---|---|---|
| Paths, PathCache, DentryTable, StaleRuns | ext2.cpp | path resolution, the dentry cache, the name-space calls, and runs on which the cache goes stale |
| Dirents, DirBlocks, LittleEndian | ext2.cpp | directory records, as lists and as bytes |
| BlockTree, FileBlocks, Truncate | ext2.cpp | the four-level block map, pread, pwrite and freeing a range |
| BlockCache | ext2.cpp | the block cache with read-ahead |
| BlockAlloc | ext2.cpp | the block bitmaps and their counters |
| Sisters | misaka_network.cpp | the SMP thread scheduler |
| Waiters, Semaphore, Mutex, Mailbox | imprimatur.cpp, judgement.cpp, radio_noise.cpp | semaphore, mutex with priority inheritance, bounded mailbox |
| Espers, EsperRuns, EsperTable | esper.cpp, fortis931.cpp | the process table, run slots and kill |
| TcpReceive | antenna.cpp | the TCP receive side |
| Channels, ChannelTable | imaginary_number_channel.cpp | AF_UNIX pairs and descriptor passing |
| Pipe | aiwass.cpp | the lock-free pipe ring |
| Heap | dark_matter.cpp | the first-fit heap |
| ShortNames, Fat16, FatFiles, FatRuns | lateran.cpp | FAT16 names, chains, files and runs of calls on them |
| Basics, Rings | several | shared types, circular-buffer arithmetic |

Where a desired property does not hold of the code, the code is modelled as it
is and the exact condition is proved:

- Comments at ext2.cpp:43-47 and 1126-1127 say the allocator leaves the index
  buffers alone.  It does not: write_gd (ext2.cpp:699) loads the descriptor
  block into the buffer that holds the top table.  `SetDouble`, `SetTriple`, `ClobberKeepsIff` and
  `NewTopNeverKept` say what that leaves on disk; `SetBlock` covers every case
  in which the code is right.
- For the same reason truncation inside the single-indirect range replaces the
  table by the descriptor block: `FreeRange` and `SweepRightIff` say exactly when it
  does not, `ThirteenToTwelve` is a run.
- Overwriting a hard-linked file resets its link count, so a later unlink can
  free an inode that still has a name.  `UnlinkSoundIff` and `RenameSoundIff`
  say when; `StrandedNameGoesStale` and `ReusedBlockGoesStale` are runs on which
  the cache then answers wrongly.
- unlink and rename take a regular file for a directory and act on the inodes its
  data spells: `UnlinkSoundIff` and `RenameSoundIff` cover that, and
  `SpeltNameGoesStale` is a run.
- Removing or overwriting a symlink of at most 60 characters frees its text as
  block numbers.  `StepWholeIff` has the exact condition on a call with a text of
  up to 48 characters, `FreeAllIdleIff`, `FreeCountedIff` and `FreedComesBack` say
  what the allocator does with such numbers, and `FreedSymlinkGoesStale` is a run.
- A waiter ring drops the ninth waiter (`LostIffOverflow`, `LostIsNotWoken`,
  `NinthWaiterBlocksForever`), bringing up a core
  with a full Sister table breaks the scheduler (`BecomeIdleKeepsIff`), the
  two unguarded parks can revive a dead Esper (`UnguardedParkRevivesIff`,
  `UnguardedKeepRevivesIff`), set_running can put one in two slots
  (`SetRunningKeepsIff`, `ForkedOnTwoCores`), a mutex
  boost is not handed on (`BoostIsNotPassedOn`), a FIN with data can lose bytes
  (`FinWithDataLosesBytesIff`), and the superblock is written around the block
  cache (`SuperStaleIff`).  Each has a run from power-on or an empty start beside it.
- A FAT write that fails over an existing file has already given up its clusters
  (`WriteFile`, `FailedOverwriteRuins`), and names that do not fit 8.3 are cut
  (`MatchIff`, `LongNameTwice`).

`dafny verify dfyconfig.toml` checks the whole project.

## Model

| member | source | states |
|---|---|---|
| `PathCache.CachedResolveIsWalk` | src/index/ext2.cpp:405-434 | after every run of lookups, attribute changes, writes, symlinks, links, mkdirs, unlinks, renames and truncates in which no resolved path is cut and the calls that do not flush (symlink, link, pwrite to an existing file) go through no inode but their own, write no symlink, and allocate only while no name dangles and no block in use has a clear bit, the cached resolve (exact hit, parent shortcut or walk) returns what the uncached walk from the root returns, for every path; unlink and rename may name inodes out of file data, and blocks of freed inodes may be reused at every allocation |
| `PathCache.CarefulRunsStayCoherent` | src/index/ext2.cpp:1063-1516 | from a file system where every name leads to an allocated inode and every block in use is marked, every run of calls that strand no name (out of a directory or out of file data), free no symlink whose text spells a block in use, go through no inode but their own, pwrite no symlink and resolve no cut path keeps that so, keeps the cache equal to the walk, and never offers a still-named inode for reuse |
| `PathCache.ResolveIsWalk` | src/index/ext2.cpp:405-434 | on a coherent cache one resolve equals the walk, found or not, and leaves the cache coherent |
| `PathCache.ShortcutRight` | src/index/ext2.cpp:410-429 | the parent-directory shortcut returns the full walk of the path, symlinks in the parent included |
| `PathCache.StepRight` | src/index/ext2.cpp:1063-1516 | each allowed name-space call keeps every cached line equal to the walk, including link, symlink and pwrite, which do not flush and may be given the blocks of freed inodes |
| `PathCache.SymlinkGrows` | src/index/ext2.cpp:1188-1238 | a symlink created on an unallocated inode only adds a name: no inode that the allocated part of the tree can reach changes |
| `PathCache.LinkGrows` | src/index/ext2.cpp:1489-1506 | a hard link only adds a name |
| `PathCache.UnlinkSoundIff` | src/index/ext2.cpp:1354-1399 | unlink, below a directory or below a file whose data reads as records, leaves every remaining name on an allocated inode if and only if the inode it frees had no other name |
| `PathCache.RenameSoundIff` | src/index/ext2.cpp:1401-1444 | rename, with directories or files as parents, leaves every name on an allocated inode if and only if the inode it replaces is not freed with another name left and the one it enters is allocated |
| `PathCache.FreedSoundIff` | src/index/ext2.cpp:799-814 | freeing an inode keeps every name on an allocated inode if and only if it is not the root and no other directory names it |
| `PathCache.StepSound` | src/index/ext2.cpp:1063-1516 | each careful call keeps both the coherent cache and a disk in order |
| `PathCache.StepWholeIff` | src/index/ext2.cpp:1063-1516 | from a disk in order, a call that goes through no inode but its own leaves every name on an allocated inode and every block in use marked and untouched if and only if it strands no name and the text of a symlink it frees spells no block in use |
| `PathCache.ForeignIff` | src/index/ext2.cpp:922-976 | on a disk in order a call goes through an inode that is not its own if and only if it hits an unallocated inode named by file data, pwrites a symlink kept in its inode, or frees one whose text reaches the index slots or a number past the last group at which something is set |
| `PathCache.BlocksKeptIff` | src/index/ext2.cpp:728-773 | a block in use is given away, or left with a clear bit, if and only if the text of a freed symlink spells it |
| `PathCache.ParentRooted` | src/index/ext2.cpp:817-859 | the inode that holds the last component is allocated, and is the root or has a name |
| `PathCache.ReusedSoundIff` | src/index/ext2.cpp:728-755 | handing out the blocks of freed inodes changes nothing that an allocated directory names |
| `PathCache.CreatedSound` | src/index/ext2.cpp:1075-1113 | creating a file, directory or symlink on a clear bitmap bit strands no name, whether or not the directory had room for the entry |
| `Paths.ResolveJoined` | src/index/ext2.cpp:351-398 | walking a path and then further components is walking the two joined, through any symlinks, provided no expansion is cut |
| `Paths.ResolveSurvives` | src/index/ext2.cpp:351-398 | a path that resolves still resolves to the same inode after directories gained names |
| `Paths.ResolvedFrom` | src/index/ext2.cpp:351-398 | the walk never returns an unreadable inode, and a symlink only if it starts on one, so chmod, chown, utime and truncate never touch a symlink |
| `Paths.ParentWalkStays` | src/index/ext2.cpp:817-859 | the parent directory found for a path lies in any set closed under naming that contains the root |
| `DentryTable.Dentries.Get` | src/index/ext2.cpp:329-333 | the scan of the dentry table returns the first valid line with that path |
| `DentryTable.Dentries.Store` | src/index/ext2.cpp:334-342 | insertion at the round-robin clock, skipped for paths over 191 characters |
| `DentryTable.Dentries.InvalidateAll` | src/index/ext2.cpp:343-345 | the loop empties every line |
| `DentryTable.Dentries.ResolvePath` | src/index/ext2.cpp:405-434 | the cached resolve in place equals its specification, cache contents included |
| `DentryTable.ResolveWalk` | src/index/ext2.cpp:351-398 | the slash, component and symlink loops compute the recursive walk, with its depth limit, 255-character components and 511-character expansions |
| `DentryTable.Expand` | src/index/ext2.cpp:373-389 | the two copy loops build target, slash and rest, cut at 511 characters |
| `DentryTable.FindParent` | src/index/ext2.cpp:817-859 | the loop of resolve_parent computes the directory and leaf, chasing intermediate symlinks |
| `DentryTable.ChaseLinks` | src/index/ext2.cpp:842-856 | the bounded symlink loop inside resolve_parent |
| `StaleRuns.StrandedNameGoesStale` | src/index/ext2.cpp:1063-1087 | a run that overwrites a hard-linked file, unlinks one name and creates a symlink makes the cache answer a path the walk no longer resolves |
| `StaleRuns.ReusedBlockGoesStale` | src/index/ext2.cpp:1374-1380 | a run that moves a directory out of its parent, removes the parent, resolves through the old ".." and grows another file by pwrite makes the cache answer a path the walk no longer resolves |
| `StaleRuns.FreedSymlinkGoesStale` | src/index/ext2.cpp:1388-1396 | on every full device with the root directory in block 97: writing a file, creating and removing the symlink "a", looking the file up and growing it by pwrite gives the pwrite block 97, and the cache answers a path the walk no longer resolves, with no name dangling |
| `StaleRuns.LetterComesBack` | src/index/ext2.cpp:922-927 | on every full device the block whose number is the code of a one-letter symlink target is the one handed out after the symlink is freed |
| `StaleRuns.SpeltNameGoesStale` | src/index/ext2.cpp:1354-1399 | a run that writes a file whose data reads as a record naming another file, unlinks that name below the first file, looks the other up and creates a symlink makes the cache answer a path the walk no longer resolves |
| `StaleRuns.PwriteOnLinkGoesStale` | src/index/ext2.cpp:1128-1182 | a pwrite that reaches a symlink inode leaves a stale line |
| `StaleRuns.LongLeafAgreesIff` | src/index/ext2.cpp:416-427 | under any cached parent, a leaf over 255 characters is answered as the walk would if and only if the rest of the leaf leads from the inode of the cut name back to it |
| `StaleRuns.LongLeafDisagrees` | src/index/ext2.cpp:416-427 | in particular, when the cut name is a file, the shortcut returns that file and the walk returns nothing |
| `Dirents.DirectoryIsMap` | src/index/ext2.cpp:863-918 | over every run of adds of fresh names and removes, a directory is exactly the finite map built by the same inserts and deletes, lookup is get for every name, and every block stays tiled by records summing to the block size |
| `Dirents.AddIsInsert` | src/index/ext2.cpp:863-918 | adding a fresh name (slack split, reuse of a zeroed first record, or appended block) inserts that binding and no other, keeping names unique and blocks tiled |
| `Dirents.AddFailsIff` | src/index/ext2.cpp:872-913 | adding fails if and only if no record has the slack and no block can be appended (disk full or twelve blocks used) |
| `Dirents.RemoveIsDelete` | src/index/ext2.cpp:1287-1322 | removal succeeds if and only if the name is present, deletes exactly it, and keeps names unique |
| `Dirents.RemoveTiles` | src/index/ext2.cpp:1306-1312 | folding a record into its predecessor, or zeroing a first one, keeps every block tiled |
| `Dirents.LookupIsGet` | src/index/ext2.cpp:248-283 | dir_lookup is map lookup, 0 for an absent name |
| `Dirents.StepRefines` | src/index/ext2.cpp:863-918 | one directory call is one map insert, delete or no-op |
| `Dirents.ChildlessIff` | src/index/ext2.cpp:288-311 | the rmdir test holds if and only if the map has no key but "." and ".." |
| `DirBlocks.ScanBlock` | src/index/ext2.cpp:253-281 | the byte-level scan of one block of any bytes, with its checks of each record, computes its specification |
| `DirBlocks.ScannedIsFind` | src/index/ext2.cpp:253-281 | on a block tiled by records the scan returns the inode of the first live record with that name |
| `DirBlocks.OneRecordSpells` | src/index/ext2.cpp:253-281 | every inode under every name can be written down as file data that the scan reads as that name |
| `DirBlocks.AddInBlock` | src/index/ext2.cpp:872-899 | the byte-level scan and in-place writes turn the block of records into the block with the entry added first-fit, other bytes of other records untouched |
| `DirBlocks.RemoveInBlock` | src/index/ext2.cpp:1297-1320 | the byte-level scan and in-place fold or clear turn the block into the block with that record removed |
| `DirBlocks.SameBytes` | src/index/ext2.cpp:270-275 | the byte loop is equality of the stored name and the buffer |
| `DirBlocks.NameMatches` | src/index/ext2.cpp:270-275 | with the terminator test, a stored name equals the buffer if and only if it is the name in it |
| `DirBlocks.Directory.LookupName` | src/index/ext2.cpp:248-283 | lookup over all blocks through the scratch buffer returns what the map holds |
| `DirBlocks.Directory.AddEntry` | src/index/ext2.cpp:863-918 | add_dirent succeeds exactly when the specification does, and then the map has exactly that binding more |
| `DirBlocks.Directory.RemoveEntry` | src/index/ext2.cpp:1287-1322 | remove_dirent succeeds exactly on a present name, and the map loses exactly it |
| `DirBlocks.Directory.IsEmpty` | src/index/ext2.cpp:288-311 | dir_is_empty decides whether only "." and ".." are left |
| `DirBlocks.Directory.constructor` | src/index/ext2.cpp:1255-1262 | the first block mkdir writes is the map of "." and ".." |
| `DirBlocks.Replaced` | src/index/ext2.cpp:883-895 | rewriting a stretch of a tiled block as other records of the same total length leaves the block tiled by the new record list |
| `LittleEndian.Le32Round` | src/index/ext2.cpp:11-20 | reading a 32-bit field back gives the value written |
| `BlockTree.HangEntry` | src/index/ext2.cpp:1005-1006 | setting an entry of an existing index table changes the block at that one address of the file and at no other, and keeps every block at one address |
| `BlockTree.HangRoot` | src/index/ext2.cpp:996-996 | the same for the fifteen inode slots |
| `BlockTree.AddrRoundTrip` | src/index/ext2.cpp:180-217 | the direct, single, double and triple index computation is undone by the arithmetic of the levels, so distinct logical blocks hang at distinct addresses |
| `BlockTree.FileFrame` | src/index/ext2.cpp:180-217 | a write outside a file's blocks moves none of them |
| `FileBlocks.Ext2File.MapBlock` | src/index/ext2.cpp:180-217 | map_block through the shared buffers returns the block at the address, 0 for a hole |
| `FileBlocks.Ext2File.SetBlock` | src/index/ext2.cpp:992-1059 | for every logical block whose second-level table exists or is not needed, inode_set_block makes it map to the given block, leaves every other logical block and every existing table where it was, writes no data block, succeeds if and only if the index tables missing on the way can be allocated, and changes no mapping when it fails |
| `FileBlocks.Ext2File.SetSingle` | src/index/ext2.cpp:998-1007 | the single-indirect range: it succeeds if and only if the table exists or can be allocated, and then only the one entry is new |
| `FileBlocks.Ext2File.SetDouble` | src/index/ext2.cpp:1009-1028 | the double-indirect range: right when the leaf table exists; otherwise it succeeds exactly when the missing tables can be allocated, and the top table ends up as the group-descriptor block with one entry set |
| `FileBlocks.Ext2File.SetTriple` | src/index/ext2.cpp:1030-1057 | the triple-indirect range: right when the second-level table exists, failing only if the leaf table is missing and cannot be allocated; otherwise it succeeds exactly when all missing tables can be allocated, and the top table ends up as the bare group-descriptor block |
| `FileBlocks.Ext2File.AllocBlock` | src/index/ext2.cpp:728-755 | as the file sees it, an allocation returns a zeroed block no one uses, touches only metadata and that block, and leaves the descriptor block in the shared index buffer |
| `FileBlocks.Ext2File.Pwrite` | src/index/ext2.cpp:1152-1178 | pwrite writes n bytes or more if and only if the allocator grants every block and index table that the first n bytes are short of, for every n up to the length; it changes exactly the bytes it reports written, zero-filling new blocks, grows the size to cover them, and touches no block in use outside the file |
| `FileBlocks.Ext2File.Pread` | src/index/ext2.cpp:509-526 | pread returns exactly the bytes of the range clamped to the size, holes as zeros |
| `FileBlocks.Ext2File.constructor` | src/index/ext2.cpp:1141-1146 | a new file has no blocks and satisfies the invariant of the block map |
| `FileBlocks.RoundTrip` | src/index/ext2.cpp:1128-1186 | what pwrite wrote is what pread of the same range returns |
| `FileBlocks.Ext2File.WriteThenRead` | src/index/ext2.cpp:1128-1186 | pwrite followed by pread returns the whole buffer if and only if the blocks and tables the range is short of are granted, otherwise as long a prefix as they allow, and exactly those bytes of the file have been overwritten |
| `FileBlocks.DemandNext` | src/index/ext2.cpp:1152-1173 | what the first bytes of a write are short of on the old disk, counting each shared table once, grows with each chunk by what its block is short of at that moment |
| `FileBlocks.TableCount` | src/index/ext2.cpp:996-1057 | where the second-level table exists at most one index table is missing on the way to a block |
| `FileBlocks.OtherFileKept` | src/index/ext2.cpp:1128-1186 | every byte of every other file is unchanged |
| `FileBlocks.ClobberKeepsIff` | src/index/ext2.cpp:1017-1027 | the other entries of a double-indirect top table survive the allocation of a missing table if and only if the descriptor block happens to hold the same words |
| `FileBlocks.NewTopNeverKept` | src/index/ext2.cpp:1009-1028 | a new double-indirect top table is never left right |
| `FileBlocks.EmptyFileLosesTopTable` | src/index/ext2.cpp:1009-1028 | on every empty file the first block installed in the double-indirect range leaves a wrong top table |
| `Truncate.ShrinkingFile.FreeRange` | src/index/ext2.cpp:1328-1349 | free_blocks_range unmaps exactly the logical blocks of its range if and only if the single-indirect table is dropped as a whole or has no block in use in the range, and nothing is mapped beyond that table; it states what is left of roots, table and bitmap in every case |
| `Truncate.SweepRightIff` | src/index/ext2.cpp:1334-1342 | clearing a range of entries leaves the table right if and only if no block of the range is in use, because freeing one puts the descriptor block in the place of the table |
| `Truncate.SweepFreesBitmap` | src/index/ext2.cpp:1334-1342 | a range that starts by freeing the first entry goes on to free the block that the descriptor names as inode bitmap |
| `Truncate.ShrunkIff` | src/index/ext2.cpp:1328-1349 | the exact condition, from the state that is left |
| `Truncate.ShrinkingFile.FreeEntry` | src/index/ext2.cpp:1334-1342 | one entry: the table goes through the shared buffer around the free |
| `Truncate.ThirteenToTwelve` | src/index/ext2.cpp:1446-1464 | a file of thirteen blocks cut to twelve ends with descriptor words as its table |
| `FileBlocks.SmallFileLosesTopTable` | src/index/ext2.cpp:1009-1028 | a sixteen-block disk on which that happens |
| `BlockCache.ReadsAreTransparent` | src/index/ext2.cpp:86-147 | after every run of reads, writes and superblock adjustments, with any transfers failing, a read of any block not in doubt returns what the bare device holds, and fails only if the device does |
| `BlockCache.OnlySuperInDoubt` | src/index/ext2.cpp:683-692 | when writes succeed, only the block holding the superblock can be in doubt |
| `BlockCache.SuperStaleIff` | src/index/ext2.cpp:683-692 | the cached superblock block reads stale after an adjustment if and only if it was cached and a counter sector changed |
| `BlockCache.AdjustedSuperIsStale` | src/index/ext2.cpp:683-692 | on every device, reading the superblock block and then adjusting its counters makes the next read return the old counters |
| `BlockCache.RunCoherent` | src/index/ext2.cpp:86-147 | every line of a block not in doubt holds the device content, and the device content is that of the run without a cache |
| `BlockCache.WriteKeeps` | src/index/ext2.cpp:135-147 | write-through keeps coherence, and a write that stops part way puts only its own block in doubt |
| `BlockCache.FilledFresh` | src/index/ext2.cpp:114-120 | spreading a read-ahead window over the direct-mapped lines keeps coherence |
| `BlockCache.BlkCache.ReadBlock` | src/index/ext2.cpp:86-133 | hit, window and single read in place equal the specification |
| `BlockCache.BlkCache.FillWindow` | src/index/ext2.cpp:112-124 | the window loop |
| `BlockCache.BlkCache.WriteBlock` | src/index/ext2.cpp:135-147 | the sector loop and line update, stopping at a failed transfer |
| `BlockCache.BlkCache.AdjustSuper` | src/index/ext2.cpp:683-692 | the superblock sectors are rewritten around the cache |
| `BlockAlloc.NoDoubleAllocation` | src/index/ext2.cpp:728-773 | over every run of allocations and frees, numbers past the device included, no block is handed out twice without a free of it in between, unless a free past the last group lands in a block bitmap |
| `BlockAlloc.CountsStayExact` | src/index/ext2.cpp:728-773 | over every run that frees only blocks of the device, each group count equals its clear bits and the superblock count their sum |
| `BlockAlloc.FreeCountedIff` | src/index/ext2.cpp:757-773 | freeing any number keeps the counts exact if and only if it lies on or below the device or the bit found for it is clear |
| `BlockAlloc.FreedComesBack` | src/index/ext2.cpp:728-773 | on a full device a block freed by whomever is the very block handed out next |
| `BlockAlloc.FreeAllIdleIff` | src/index/ext2.cpp:922-927 | freeing whatever the direct slots of an inode hold changes nothing if and only if every slot is empty, below the first block, past the last group or names a clear bit, numbers past the last group being taken to find no set bit (`FreeCountedIff` has them) |
| `BlockAlloc.AllocFailsIff` | src/index/ext2.cpp:728-755 | allocation fails if and only if every block of the device is in use, whatever the hint |
| `BlockAlloc.AllocTakesFreeBlock` | src/index/ext2.cpp:735-750 | the block handed out was free, is in use afterwards, and no other block's bit changes |
| `BlockAlloc.FreeReleases` | src/index/ext2.cpp:757-773 | freeing a block of the device clears its bit and no other, keeps exact counts exact, and is the identity on a free block |
| `BlockAlloc.NoWrap` | src/index/ext2.cpp:737-739 | neither the 16-bit group count nor the 32-bit superblock count can wrap |
| `BlockAlloc.Numbered` | src/index/ext2.cpp:758-760 | block number and (group, bit) determine each other |
| `BlockAlloc.MarkedBits` | src/index/ext2.cpp:735-736 | setting one bit of the bitmap changes that bit only |
| `BlockAlloc.UnmarkedBits` | src/index/ext2.cpp:766-767 | clearing one bit changes that bit only |
| `BlockAlloc.Allocator.AllocBlock` | src/index/ext2.cpp:728-755 | the group and bit loops take the specified block, and its data is zeroed while all other data stays |
| `BlockAlloc.Allocator.FreeBlock` | src/index/ext2.cpp:757-773 | free_block of any number in place equals the specification: ignored below the first data block, a bit of the last group's padding past the device, and past the last group whatever the bytes read as a descriptor point at, data blocks included |
| `Semaphore.Conserved` | src/index/imprimatur.cpp:34-59 | over every run, grants plus banked permits equal initial permits plus posts, permits are banked only while nobody is queued, and waiters are woken in arrival order |
| `Semaphore.LostIffOverflow` | src/index/imprimatur.cpp:9-16 | every wait that was not granted is woken or still queued, with multiplicity, if and only if no wait found eight Sisters already queued |
| `Semaphore.LostIsNotWoken` | src/index/imprimatur.cpp:34-59 | a Sister lost this way is woken by no later post unless it waits again |
| `Semaphore.BlockedAreServed` | src/index/imprimatur.cpp:34-59 | without overflow the blocked Sisters are exactly the woken ones followed by the queue, in order |
| `Semaphore.Imprimatur.WaitBy` | src/index/imprimatur.cpp:34-49 | wait in place equals the specification |
| `Semaphore.Imprimatur.PostPermit` | src/index/imprimatur.cpp:51-59 | post in place equals the specification |
| `Waiters.WaiterRing.Enqueue` | src/index/imprimatur.cpp:9-16 | the waiter ring appends, and drops an arrival when eight are queued |
| `Waiters.WaiterRing.Dequeue` | src/index/imprimatur.cpp:18-23 | the waiter ring returns and removes the oldest |
| `Mutex.MutualExclusion` | src/index/judgement.cpp:35-75 | over every run at most one Sister is inside and it is the owner, hand-off is in arrival order, and the owner's Level is at least that of every Sister that queued during its ownership |
| `Mutex.BoostIsNotPassedOn` | src/index/judgement.cpp:56-75 | on hand-off a remaining waiter outranks the new owner if and only if it does by base Level: the boost is not passed on |
| `Mutex.NinthWaiterBlocksForever` | src/index/judgement.cpp:35-54 | a Sister that locks while eight wait stays blocked and never owns the lock, over every further run |
| `Mutex.AllQueuedIffNoOverflow` | src/index/judgement.cpp:35-54 | every blocked Sister is queued if and only if no lock ever found eight waiting |
| `Mutex.StepKeeps` | src/index/judgement.cpp:35-75 | each lock or unlock keeps the ownership, queue and Level invariant |
| `Mutex.Judgement.LockBy` | src/index/judgement.cpp:35-54 | lock in place equals the specification, Levels included |
| `Mutex.Judgement.UnlockBy` | src/index/judgement.cpp:56-75 | unlock in place equals the specification, Levels included |
| `Mailbox.FifoOfCapacityFour` | src/index/radio_noise.cpp:13-30 | for any number of senders and receivers interleaved at every semaphore, mutex and buffer step, received is a prefix of sent, at most four messages are between, and free permits, filled permits and holders total four |
| `Mailbox.NoOverwriteNoStaleRead` | src/index/radio_noise.cpp:13-30 | a sender about to store never hits an unread slot, and a receiver about to fetch finds the next message sent |
| `Mailbox.StepKeeps` | src/index/radio_noise.cpp:13-30 | each step of each Sister keeps the permit, queue, mutex and buffer invariants |
| `Mailbox.MutexSteps` | src/index/radio_noise.cpp:13-30 | the mailbox's lock and unlock steps are those of the mutex model |
| `Mailbox.RestIsFullOrEmpty` | src/index/radio_noise.cpp:13-30 | no deadlock: when every Sister is idle or blocked, in a run that met no full waiter ring, nobody is blocked on the mutex, and whoever is blocked is a sender with four messages outstanding or a receiver with none |
| `Mailbox.AllQueuedIff` | src/index/radio_noise.cpp:13-30 | everyone who is blocked is in a queue it can be woken from if and only if no step met a full waiter ring |
| `Mailbox.LostIff` | src/index/radio_noise.cpp:13-30 | a step loses a Sister exactly when it blocks that Sister at a full ring, and nobody lost comes back |
| `Mailbox.EightAreUncrowded` | src/index/radio_noise.cpp:13-30 | with at most eight Sisters no ring is ever full on an arrival |
| `Mailbox.RadioNoise.Put` | src/index/radio_noise.cpp:13-20 | the store under the lock appends to the ring |
| `Mailbox.RadioNoise.Take` | src/index/radio_noise.cpp:22-30 | the fetch under the lock removes the oldest |
| `Sisters.EveryCoreHasItsOwnSister` | src/index/misaka_network.cpp:161-279 | in every reachable state each online core's current Sister is running with that core as owner, no Sister is on two cores, and a core running a non-idle Sister has someone ready to switch to |
| `Sisters.BlockReturnsOnlyAfterUnblock` | src/index/misaka_network.cpp:1028-1038 | from a block until its unblock, over any later events, the Sister stays blocked and is on no core |
| `Sisters.AnIdleIsReady` | src/index/misaka_network.cpp:598-619 | by pigeonhole an idle Sister is ready whenever an online core runs a non-idle one |
| `Sisters.LeaveKeeps` | src/index/misaka_network.cpp:645-656 | a non-idle Sister that blocks, sleeps or finishes always leaves the core, and the invariant holds afterwards |
| `Sisters.BecomeIdleKeepsIff` | src/index/misaka_network.cpp:598-619 | bringing a core up keeps the invariant if and only if a Sister slot is free |
| `Sisters.FullTableThenBringUp` | src/index/misaka_network.cpp:598-619 | after twenty-two spawns from boot, a core that comes up that late runs a Sister that is not its own |
| `Sisters.PickIsHighestNearest` | src/index/misaka_network.cpp:161-184 | pick_next returns the nearest ready Sister after the current one among those of highest Level, or the current one if none is ready |
| `Sisters.StepKeeps` | src/index/misaka_network.cpp:242-279 | each scheduler event keeps the invariant and un-blocks nobody but its target |
| `Sisters.MisakaNetwork.PickNext` | src/index/misaka_network.cpp:161-184 | the two scans compute the pick |
| `Sisters.MisakaNetwork.SwitchToNext` | src/index/misaka_network.cpp:242-255 | switch_to in place |
| `Sisters.MisakaNetwork.WakeDueSleepers` | src/index/misaka_network.cpp:258-265 | the sleeper loop |
| `Sisters.MisakaNetwork.ReschedOn` | src/index/misaka_network.cpp:269-279 | resched in place |
| `Sisters.MisakaNetwork.YieldOn` | src/index/misaka_network.cpp:997-1005 | yield in place |
| `Sisters.MisakaNetwork.SleepOn` | src/index/misaka_network.cpp:1007-1014 | sleep in place |
| `Sisters.MisakaNetwork.LeaveOn` | src/index/misaka_network.cpp:1028-1032 | block and finish in place |
| `Sisters.MisakaNetwork.UnblockSister` | src/index/misaka_network.cpp:1034-1038 | unblock in place |
| `Sisters.MisakaNetwork.AllocSlot` | src/index/misaka_network.cpp:186-193 | the scan for a free slot |
| `Sisters.MisakaNetwork.BecomeIdleOn` | src/index/misaka_network.cpp:598-619 | become_idle in place |
| `EsperRuns.OneSlotPerRunningEsper` | src/index/esper.cpp:403-649 | over every run of the locked primitives on up to eight cores, no Esper is in two run slots, every running one is in exactly one, and no ready or waiting one is in any |
| `EsperRuns.PidKeptWhileReferenced` | src/index/esper.cpp:86-161 | an entry keeps its pid as long as some run slot or active slot names it |
| `EsperRuns.NoRevival` | src/index/esper.cpp:505-613 | a dead Esper whose entry was not reissued is still dead after any run |
| `EsperRuns.UnguardedParkRevivesIff` | src/index/esper.cpp:607-613 | the locked park leaves the dead dead if and only if the caller was still running |
| `EsperRuns.UnguardedKeepRevivesIff` | src/index/esper.cpp:635-649 | the same for the park that keeps its caller when there is no successor |
| `EsperRuns.KilledThenParked` | src/index/esper.cpp:607-649 | create, make ready, pick on core 1, kill from elsewhere: either park then revives the Esper |
| `EsperRuns.BoundedWaiting` | src/index/esper.cpp:284-304 | in every run, an Esper that is claimable whenever a core picks (on park, preemption, exit, group exit, fault, vfork or from idle, each starting at the core's own slot) is running on that core within as many of its picks as the cyclic distance from the first start, at most sixty-four, whatever other events come between |
| `EsperRuns.PickClaims` | src/index/esper.cpp:421-601 | after each of these primitives the core's slot holds the first claimable Esper going round from its slot before, in the table the primitive leaves |
| `EsperRuns.OthersKeepSlot` | src/index/esper.cpp:403-649 | no event of another core, and no kill, wake, creation or exit elsewhere, changes a core's slot |
| `EsperRuns.SetRunningKeepsIff` | src/index/esper.cpp:617-625 | set_running, with an Esper or with -1 to clear the slot, keeps the slot invariant if and only if no other core has the Esper and the core leaves nobody running behind, and revives nobody if and only if the Esper is alive |
| `EsperRuns.ForkedOnTwoCores` | src/index/esper.cpp:579-625 | a run from power-on in which a vfork on a core above the cap, a wake and a pick elsewhere, and set_running put one Esper in two run slots |
| `EsperRuns.PickIsNearer` | src/index/esper.cpp:284-304 | each pick is the waiting Esper or strictly nearer to it |
| `EsperRuns.PreemptScansAlike` | src/index/esper.cpp:437-476 | the preemption scan picks what the ordinary scan would |
| `EsperRuns.CreateKeeps` | src/index/esper.cpp:96-161 | create reuses only a dead entry no core references, gives it a new pid, and changes no other entry |
| `EsperRuns.CreateFailsIff` | src/index/esper.cpp:96-161 | create fails if and only if every dead entry is still referenced |
| `EsperRuns.StepKeeps` | src/index/esper.cpp:403-649 | each primitive keeps the slot invariant; none but create changes a pid or revives the dead |
| `EsperRuns.ExitOneKeeps` | src/index/esper.cpp:505-520 | exit with its parent wake and tracee detach keeps the invariant |
| `EsperRuns.GroupExitKeeps` | src/index/esper.cpp:529-548 | group exit keeps the invariant |
| `EsperRuns.VforkKeeps` | src/index/esper.cpp:579-601 | the vfork hand-off keeps the invariant |
| `EsperRuns.PreemptKeeps` | src/index/esper.cpp:437-476 | preemption keeps the invariant |
| `EsperRuns.KillGentle` | src/index/fortis931.cpp:38-75 | a kill changes no run slot and no pid, and only kills or wakes a waiting Esper |
| `EsperRuns.KillPgrpGentle` | src/index/fortis931.cpp:79-116 | the same for a whole process group |
| `EsperTable.Scheduler.PickFor` | src/index/esper.cpp:284-304 | the wake and claim loops equals the specification |
| `EsperTable.Scheduler.Park` | src/index/esper.cpp:421-435 | park in place equals the specification |
| `EsperTable.Scheduler.ParkLocked` | src/index/esper.cpp:607-613 | the locked park in place equals the specification |
| `EsperTable.Scheduler.ParkKeep` | src/index/esper.cpp:635-649 | the keeping park in place equals the specification |
| `EsperTable.Scheduler.TakeBack` | src/index/esper.cpp:617-625 | set_running in place, -1 included equals the specification |
| `EsperTable.Scheduler.Preempt` | src/index/esper.cpp:437-476 | preemption in place equals the specification |
| `EsperTable.Scheduler.WakeParentOf` | src/index/esper.cpp:329-401 | the parent wake in place equals the specification |
| `EsperTable.Scheduler.Detach` | src/index/esper.cpp:485-503 | the tracee loop equals the specification |
| `EsperTable.Scheduler.Exit` | src/index/esper.cpp:505-520 | exit in place equals the specification |
| `EsperTable.Scheduler.GroupExit` | src/index/esper.cpp:529-548 | the group exit loop equals the specification |
| `EsperTable.Scheduler.Fault` | src/index/esper.cpp:550-563 | fault in place equals the specification |
| `EsperTable.Scheduler.Vfork` | src/index/esper.cpp:579-601 | the vfork hand-off in place equals the specification |
| `EsperTable.Scheduler.New` | src/index/esper.cpp:96-161 | create, with its two slot searches equals the specification |
| `EsperTable.Scheduler.KillEntry` | src/index/fortis931.cpp:38-75 | kill_one_locked in place equals the specification |
| `EsperTable.Scheduler.KillGroup` | src/index/fortis931.cpp:79-116 | the process-group loop equals the specification |
| `Pipe.OutputIsPrefixOfInput` | src/index/aiwass.cpp:125-187 | with one reader and one writer interleaved at counter loads, byte copies and counter updates, output is always a prefix of the published input |
| `Pipe.NoUnreadByteOverwritten` | src/index/aiwass.cpp:160-187 | a byte store never lands on a slot holding an unread byte |
| `Pipe.SmallWritesAppearAtOnce` | src/index/aiwass.cpp:160-187 | a write becomes visible only as a whole step, and one of at most 4096 bytes is refused or appears entire |
| `Pipe.StepKeeps` | src/index/aiwass.cpp:125-187 | each fine-grained step keeps the counter and byte invariant |
| `Pipe.Aiwass.Write` | src/index/aiwass.cpp:160-187 | write appends what fits, all or nothing up to 4096 bytes, with its error codes |
| `Pipe.Aiwass.Read` | src/index/aiwass.cpp:125-142 | read removes the oldest bytes, with its end-of-file and would-block codes |
| `TcpReceive.ReceivedIsPrefix` | src/index/antenna.cpp:890-984 | against a peer with one byte stream and a network that drops, repeats and reorders its segments, bare ones of any number included, bytes read plus bytes in the ring are a prefix of the stream, until a FIN is accepted the sequence counter counts exactly them, and an accepted FIN means the whole stream has arrived |
| `TcpReceive.DeliverKeeps` | src/index/antenna.cpp:890-984 | delivering any segment of the peer, a bare ACK or repeated SYN of any number included and only a FIN with data that arrives in order at a full ring excepted, keeps the receive invariant through partial stores and out-of-order parking |
| `TcpReceive.DrainAllKeeps` | src/index/antenna.cpp:428-446 | draining parked segments keeps the receive invariant |
| `TcpReceive.ParkKeeps` | src/index/antenna.cpp:450-467 | parking keeps the receive invariant |
| `TcpReceive.FinWithDataLosesBytesIff` | src/index/antenna.cpp:940-984 | an in-order FIN carrying data is accepted if and only if the ring is full, and then bytes of the stream are lost |
| `TcpReceive.FullRingLosesLastByte` | src/index/antenna.cpp:890-984 | for every stream one byte longer than the ring: sixty-four in-order segments and a FIN with the last byte leave a connection that has accepted the FIN without that byte |
| `TcpReceive.Antenna.RxPut` | src/index/antenna.cpp:413-423 | the store loop keeps as many bytes as fit |
| `TcpReceive.Antenna.DrainOoo` | src/index/antenna.cpp:428-446 | the repeated drain passes in place |
| `TcpReceive.Antenna.ParkOoo` | src/index/antenna.cpp:450-467 | the duplicate and free-slot scans in place |
| `TcpReceive.Antenna.DeliverTcp` | src/index/antenna.cpp:890-984 | the receive path in place equals the specification |
| `TcpReceive.Antenna.TryRecv` | src/index/antenna.cpp:655-669 | the receive copy loop removes the oldest bytes |
| `Channels.PeersNeverDangle` | src/index/imaginary_number_channel.cpp:208-247 | over every run of table calls a connected end's peer is another connected stream end that names it back, through closes and slot reuse |
| `Channels.ReceivedIsPrefixOfSent` | src/index/imaginary_number_channel.cpp:249-269 | in each life of a slot, bytes received are a prefix of bytes sent to it and the ring holds exactly the rest |
| `Channels.RidersConserved` | src/index/imaginary_number_channel.cpp:415-460 | descriptors leave in attach order, each only after the first byte written past its attachment was consumed, and attached is taken then pending, or taken then released once the slot was freed |
| `Channels.TakeIsGreedy` | src/index/imaginary_number_channel.cpp:437-460 | what take leaves behind is nothing, beyond the limit, or not yet reached |
| `Channels.StepKeeps` | src/index/imaginary_number_channel.cpp:102-460 | each call keeps pairing, stream and descriptor invariants |
| `Channels.ConnectKeeps` | src/index/imaginary_number_channel.cpp:208-247 | connect keeps them, a listener connecting to itself included |
| `Channels.CloseKeeps` | src/index/imaginary_number_channel.cpp:360-375 | close keeps them and accounts for the descriptors it drops |
| `ChannelTable.Receiver.Push` | src/index/imaginary_number_channel.cpp:249-269 | the send loop appends what fits and counts it |
| `ChannelTable.Receiver.Pull` | src/index/imaginary_number_channel.cpp:163-173 | the receive loop removes the oldest bytes |
| `ChannelTable.Receiver.Attach` | src/index/imaginary_number_channel.cpp:415-435 | the attach loop ties each descriptor to the current position |
| `ChannelTable.Receiver.TakeRipe` | src/index/imaginary_number_channel.cpp:437-460 | the scan and the in-place shift remove exactly the ripe prefix |
| `ChannelTable.ChannelSlots.ConnectTo` | src/index/imaginary_number_channel.cpp:208-247 | connect in place equals the specification |
| `ChannelTable.ChannelSlots.NewPair` | src/index/imaginary_number_channel.cpp:381-400 | socketpair in place equals the specification |
| `ChannelTable.ChannelSlots.CloseOne` | src/index/imaginary_number_channel.cpp:360-375 | close in place equals the specification |
| `Heap.ArenaStaysTiled` | src/index/dark_matter.cpp:80-123 | after any sequence of allocations, of sizes that wrap when rounded included, and frees of live pointers, blocks tile the arena, no two adjacent blocks are free, and live payloads lie inside the arena and are disjoint |
| `Heap.AllFreedIsInitial` | src/index/dark_matter.cpp:109-123 | an arena with nothing live is the single initial block |
| `Heap.AllocEffect` | src/index/dark_matter.cpp:80-107 | allocation is first fit, fails if and only if no free block is large enough, and changes no other live block |
| `Heap.AllocKeepsSeparation` | src/index/dark_matter.cpp:90-104 | splitting creates no two adjacent free blocks |
| `Heap.CoalesceEffect` | src/index/dark_matter.cpp:58-69 | coalescing leaves no adjacent free blocks and every live block as it was |
| `Heap.FreeEffect` | src/index/dark_matter.cpp:109-123 | freeing removes exactly that live block |
| `Heap.AlignUpCoversIff` | src/index/types.hpp:16-18 | rounding up to 16 covers the size if and only if the size is at most 2^64 - 16 |
| `Heap.WrappedRequestFits` | src/index/dark_matter.cpp:80-107 | a request whose rounding wraps is given a block of at most 16 bytes, and fails if and only if nothing is free |
| `Heap.DarkMatter.Allocate` | src/index/dark_matter.cpp:80-107 | allocation in the byte arena equals the specification and writes no live payload |
| `Heap.DarkMatter.Release` | src/index/dark_matter.cpp:109-123 | free in the byte arena equals the specification and writes no live payload |
| `Heap.DarkMatter.MergeFree` | src/index/dark_matter.cpp:58-69 | the coalescing walk over headers in memory computes the specification |
| `FatFiles.FatFs.WriteFile` | src/index/lateran.cpp:548-610 | write_file returns -1 if and only if no slot can be had or the free clusters with those of the old file are too few; otherwise the name reads as exactly those bytes and every other name in every directory as before, FAT copies stay equal and chains acyclic and disjoint, and names stay distinct if and only if no other entry shows what the name is cut to; after -1 every other name reads as before, and the volume is consistent if and only if the name had no clusters to give up |
| `FatFiles.FatFs.Overwrite` | src/index/lateran.cpp:564-568 | the case of a name that is there: its clusters are given back first, so a failure leaves an entry no assignment of chains fits |
| `FatFiles.FatFs.WriteNew` | src/index/lateran.cpp:569-571 | the case of a name that is not there: a failure changes no reading, and takes a cluster exactly when it made the directory grow |
| `FatFiles.FatFs.StoreNew` | src/index/lateran.cpp:573-610 | building the chain and writing the entry changes that one slot and what its name reads as |
| `FatFiles.FatFs.ReadFile` | src/index/lateran.cpp:459-516 | read_file returns what the name reads as, cut to the caller's capacity |
| `FatFiles.FatFs.Unlink` | src/index/lateran.cpp:612-640 | unlink succeeds exactly on a name that reads as something, which then reads as nothing, every other name reading as before, and gives back exactly its clusters |
| `FatFiles.FatFs.FreeSlot` | src/index/lateran.cpp:244-279 | the slot search fails if and only if all slots are taken and the directory is the root or no cluster is free; growing a full subdirectory takes one cluster and changes no reading |
| `FatFiles.FatFs.Find` | src/index/lateran.cpp:219-239 | dir_find returns the first matching slot before the end mark |
| `FatFiles.Entered` | src/index/lateran.cpp:574-608 | filling a slot with a chain of formerly free clusters keeps all chains acyclic, disjoint and owned by exactly the live files and subdirectories |
| `FatFiles.Dropped` | src/index/lateran.cpp:564-568 | freeing one chain disturbs no other |
| `FatFiles.StoredReads` | src/index/lateran.cpp:597-608 | after the entry is written, what its field shows reads as the bytes of the new chain, the name given (if it is another) as nothing, and every other name as before |
| `FatFiles.FindAfter` | src/index/lateran.cpp:219-239 | after one slot was rewritten, lookups give it for the new name, nothing for the old one, and for any other name what they gave before |
| `FatFiles.ChosenOrderlyIff` | src/index/lateran.cpp:564-571 | writing the entry keeps names distinct if and only if no other entry shows what the packed name shows |
| `FatFiles.Unrepairable` | src/index/lateran.cpp:574-581 | a file entry whose first cluster is free belongs to no consistent volume |
| `FatRuns.RunAll` | src/index/lateran.cpp:548-640 | over every sequence of writes and unlinks a ledger of free clusters, files and open directory slots foretells each outcome: a write succeeds if and only if a slot can be had and its clusters fit, an unlink if and only if the file is there; the run stops only at a write that gave up an old file and failed, after which the volume is inconsistent; otherwise the volume is what the ledger says and every name reads as its last successful write not followed by an unlink |
| `FatRuns.RunOne` | src/index/lateran.cpp:548-640 | one call does to the ledger of the volume what the ledger foretells, directory growth by failed writes included |
| `FatRuns.ThroughLatest` | src/index/lateran.cpp:548-640 | in the ledger a name reads as its last successful write not followed by an unlink |
| `FatRuns.RoomInBooks` | src/index/lateran.cpp:548-610 | the volume has room for a write exactly when its ledger says so |
| `FatRuns.FailedOverwriteRuins` | src/index/lateran.cpp:564-581 | a volume with one cluster on which a failed overwrite leaves an inconsistent volume |
| `FatRuns.LongNameOnce` | src/index/lateran.cpp:177-187 | a name of twelve characters reads back under its first eight only |
| `FatRuns.LongNameTwice` | src/index/lateran.cpp:564-610 | writing it twice leaves two entries of the same name |
| `Fat16.Volume.FatSet` | src/index/lateran.cpp:126-136 | the mirror loop writes the same entry in every copy |
| `Fat16.Volume.AllocCluster` | src/index/lateran.cpp:151-164 | the first free cluster, marked last and zeroed; none if and only if no cluster is free, otherwise one fewer is |
| `Fat16.Volume.FreeChain` | src/index/lateran.cpp:167-174 | the loop frees exactly the chain, its guard never cuts it short, and as many clusters come back as the chain has |
| `Fat16.Volume.BuildChain` | src/index/lateran.cpp:574-595 | the allocation and sector loops build a chain whose bytes begin with the buffer if and only if enough clusters are free, and otherwise roll back to the old tables |
| `Fat16.Volume.ReadChain` | src/index/lateran.cpp:494-515 | the cluster and sector loops return the first bytes of the chain |
| `Fat16.ChainGrows` | src/index/lateran.cpp:582-587 | linking a fresh last cluster extends the chain by it |
| `Basics.Crowded` | src/index/lateran.cpp:167-174 | distinct clusters are at most as many as the table has entries |
| `ShortNames.MatchIff` | src/index/lateran.cpp:83-111 | a directory field written for a name matches just the names that differ from it at most in case if and only if the name has at most eight characters before the first dot, one to three behind it if there is one, and no blank |
| `ShortNames.FoundAgainIff` | src/index/lateran.cpp:177-187 | what is shown for a packed name is that name up to case if and only if the name fits the field |
| `ShortNames.LongNameIsCut` | src/index/lateran.cpp:177-187 | a name that does not fit, and what it is cut to |
| `ShortNames.ShownPacked` | src/index/lateran.cpp:99-187 | packing a name that fits and showing it gives the name in upper case |
| `ShortNames.PackName` | src/index/lateran.cpp:177-187 | the to_83 loops compute the packing |
| `ShortNames.ShowName` | src/index/lateran.cpp:99-111 | the format_83 loops compute the shown name |
| `ShortNames.CompareNames` | src/index/lateran.cpp:87-96 | ci_equal is equality up to case |

## Left out

- PathCache: the inode a symlink or create gets is any clear bit, not the lowest; disk failures, the growth of a directory inode and special files are not modelled. Which numbers past the last group find a set bit (`live`), what file data reads as (`data`) and which calls go through an overwritten index table (`wild`; `SetDouble`, `SetTriple` and `FreeRange` say on block contents when one is overwritten) are inputs; after a block in use was written by a call that does not own it, later calls may leave anything on the disk.
- PathCache.StepWholeIff: calls that go through an inode that is not their own (`ForeignIff` says which) are taken to damage the disk, though some of them meet nothing of value; for those the condition is sufficient only.
- CachedResolveIsWalk: the conditions on the calls are sufficient; only one direction is proved there, since a cut path or a reused block may still resolve alike by accident. `LongLeafAgreesIff` is exact for cut leaves and `StepWholeIff` for the state of the disk.
- PathCache.Step: the name-space calls are functions on values; only the cache and the walks are also modelled in place.
- DirBlocks.Directory: blocks are taken to be well-formed, so the checks for malformed records never fire (`ScanBlock` has them for dir_lookup; dir_is_empty does not show them); directory blocks beyond the twelve direct slots can be searched but not added, as in the code; the block leaked by a failed append is not modelled.
- DirBlocks.RemoveInBlock: the first record of a block is handled before the loop rather than inside it.
- FileBlocks.Ext2File: the allocator is a supply of fresh zeroed blocks with arbitrary metadata writes (BlockAlloc proves what the real one grants); scratch buffers are values rather than arrays; block counts and timestamps in the inode are left out; offsets stay below 2^32.
- FileBlocks.Ext2File.Pwrite: requires that every block it touches is direct, single-indirect, or has its second-level table, which is where inode_set_block is right; where it is not, `SetDouble` and `SetTriple` say what is left.
- Truncate: the descriptor block starts with two bitmap numbers that are metadata and in use; which descriptor and metadata contents each free leaves is an input, as for allocations; sizes, block counts and the tail bytes after a shrink, and free_inode_blocks, whose double- and triple-indirect loops go through the same overwritten buffer.
- BlockCache: the device is a whole number of blocks, at most 2^32 of them; remounting with another block size is not modelled.
- BlockAlloc: bitmaps, counters and data are separate fields rather than blocks of one disk; what a free past the last group does to them is an input; alloc_inode and free_inode, which follow the same pattern.
- Semaphore.Conserved: permits are unbounded integers; the 32-bit counter would wrap after 2^31 banked posts.
- Mutex.MutualExclusion: one lock; several locks held at once, where a boost for one is dropped on release of another, are not modelled.
- Sisters: late or timed-out secondary bring-up, context-switch assembly and interrupts.
- Espers: signal delivery is an input that may or may not succeed; the pid counter is unbounded; memory, descriptors and the unused esper_exit and esper_fault.
- Pipe: end-of-file and slot recycling under fine interleaving, and more than one reader or writer.
- TcpReceive.ReceivedIsPrefix: assumes that no FIN carries data in order into a full ring (`FinWithDataLosesBytesIff` says when that matters) and a stream shorter than 2^32 bytes; sending, retransmission, timers and connection set-up.
- Channels: datagram sockets beyond their table slots, blocking waits and wake-ups, concurrent calls on one slot; byte totals are unbounded.
- ChannelTable: the ring and descriptor arrays of one slot and the table are two classes; bind, listen, accept and reference counting are functions on values only.
- Heap: the arena is a sequence of 16-byte granules, a header filling one; that payloads start on 16-byte boundaries is part of this representation, and alignment within a granule is not visible.
- FatFiles.FatFs.WriteFile: the directory is given, not resolved from a path; the name must not be that of a directory, whose clusters the code would free with the files in it, nor start with the character that marks a deleted slot; transfers do not fail.
- FatFiles.FatFs.Unlink: the name must not be that of a directory, for the same reason.
- FatRuns.RunAll: names fit 8.3; `WriteFile` says what happens to the others.
- FatFiles: directory entries are values, not 32-byte fields; mkdir, listing and stat.
- The shell, test programs, reports, procfs, 9P, DHCP, drivers, page tables, and everything not listed above.
