# A Dafny model of the Nyxis kernel's filesystem, memory and processes

This project models, in Dafny, the parts of the kernel that carry its hard promises, and
proves those promises for every input and every run.

**NyFS.** The block bitmap, the extent streams stored as chained list blocks, the directory
hash table stored in such a stream, access lists, and the volume operations create, mkdir,
unlink, read, write, readdir, rename and format, all on one mutable disk. Each layer is
proved against a simple one: a set of owned blocks, a byte sequence, a finite map from names,
a tree of nodes. The modules, from the bottom up: `Bytes`, `Bits`, `Counting`, `Extents`,
`Streams`, `Store`, `DirTable`, `DirBytes`, `DirHash`, `Acl`, `Volumes`, `FsSpec`, `Nyfs`,
`NyfsRuns`. The VFS dentry cache sits on the same volume: `FsTree`, `DentryCache`, `VfsSpec`,
`Vfs`, `VfsRuns`.

**Memory and processes.** The free list threaded through the free frames themselves, the
four-level page tables made of such frames, address spaces, the user heap, the ELF loader,
process creation with its cleanup, reaping and round-robin scheduling: `Entries`, `Frames`,
`Translation`, `Processor`, `Effects`, `Paging`, `UserPages`, `Umem`, `Elf`, `Scheduling`, `KernMem`,
`Kernels`, `KernelRuns`.

**Smaller machines.** FAT16 chains of any shape (`Fat16`), generation-tagged handles
(`Handles`), and the read and write calls on open files of either file system (`FileIo`).

Conventions. State that the source changes in place is a class whose real fields are the
source's and whose ghost fields say what they mean; a datatype collects both, so that the
invariant and its preservation are lemmas about values. Ownership is a function from blocks,
or frames, to owners, which makes disjointness a matter of equality. Disk blocks and frames
are byte strings; list blocks, hash records, access entries and page-table entries are
encoded in them byte for byte.

## What holds only under a condition

- A directory insert that runs out of space leaves the map as it was; the writes that commit
  it never need a block (`DirHash.WriteRecord`, `DirHash.LinkRecord`).
- A write of zero bytes past the allocated blocks of a file sets a size the file does not
  have. `Nyfs.Volume.Write` states it as an equivalence: the volume stays valid if and only if
  the write carries data or starts within the allocated blocks. The open call probes with a
  zero-byte write at offset 0, which is always within.
- Blocks are lost to the file system in three cases only, and the contracts say which: a
  create or mkdir that fails after its table or overflow block was made, a first write to an
  empty file that runs out of space, and the overflow block of an unlinked inode. In every
  other case the sets of unreferenced streams and blocks are unchanged.
- A rename can lose the binding: it takes the old entry out before it puts the new one in. It
  does so exactly when the directory has no room for the new record and then none for the old
  one either, where room means that the record ends inside the directory's stream or that a
  block can be appended to it (`Nyfs.Volume.Fits`); with two free blocks there is always room.
  `Nyfs.Volume.Rename` states it, `NyfsRuns.RenameOnFullVolume` is a volume where it happens,
  and in a whole run it is the only way an inode loses its name (`NyfsRuns.Run`).
- Renaming a cached path to itself frees its dentry and hangs the freed dentry back into the
  tree, where its slot will be given out again (drivers/filesystem/vfs.c:1261-1279).
  `Vfs.SelfRenameBreaks` shows that no such cache is coherent. `Vfs.VfsCache.Rename` states when
  the cache disagrees with the tree afterwards: after such a rename, or after one that loses
  the binding of a cached path, and never else.
- A file whose FAT16 chain is shorter than its size can be read as far as the chain goes
  (`Fat16.FileComplete` says when it is whole).
- The comment at drivers/filesystem/vfs.c:1235-1238 says that ancestors missing from the cache
  escape the check for cycles. None can be missing (`DentryCache.AncestorCached`): resolving
  the new path has put every ancestor of the new directory into the cache, so the check is
  complete.
- A handle value is valid again after its slot has been closed 2^32 times, and exactly then
  (`Handles.StaleRefused`).

## Model

| member | source | states |
|---|---|---|
| Bytes.DecEnc | drivers/filesystem/nyfs/nyfs.c:208-225 | A little-endian field holds any value that fits it: decoding what was encoded gives the value back. |
| Bytes.EncDec | drivers/filesystem/nyfs/nyfs.c:208-225 | Every byte string is the encoding of the number it decodes to, so a field's bytes and its value determine each other. |
| Bits.ClearBitsUpdate | drivers/filesystem/nyfs/nyfs.c:310-369 | Flipping one bit changes the number of clear bits by exactly one, in the right direction: the law behind the cached free counts. |
| Extents.BlocksAt | drivers/filesystem/nyfs/nyfs.c:489-531 | Where a block of the expanded sequence sits: the list node, the extent and the offset in it. |
| Extents.AppendBlockGrows | drivers/filesystem/nyfs/nyfs.c:631-762 | Lengthening the last extent, adding an extent, or chaining a new list block: each makes the expanded block sequence longer by exactly the new block. |
| Extents.AppendBlockTakes | drivers/filesystem/nyfs/nyfs.c:631-762 | A block right behind the last extent costs no extent; else an extent is added while header and extents fit the block and are at most 128; only then a list block. |
| Extents.WriteSlot | drivers/filesystem/nyfs/nyfs.c:631-762 | Writing an extent slot and then the list header leaves a list block that parses back to the extents with that slot replaced or added, all others intact. |
| Streams.ReadAfterWrite | drivers/filesystem/nyfs/nyfs.c:764-871 | Reading back a written range gives the data; reading a range that does not meet it gives what it gave before. |
| Streams.StreamsDisjoint | drivers/filesystem/nyfs/nyfs.c:310-369 | No block belongs to two streams or twice to one, as data or as list block; none lies in the metadata region; all are marked used. |
| Streams.Ledger | drivers/filesystem/nyfs/nyfs.c:310-369 | A block is used exactly when it is metadata, a single block, or a list or data block of a stream; the free count is the number of clear bits. |
| Streams.AppendKeepsInv | drivers/filesystem/nyfs/nyfs.c:631-762 | Appending a block in any of its three ways keeps bitmap, owners, chains and on-disk list blocks in agreement. |
| Streams.OverwriteKeepsInv | drivers/filesystem/nyfs/nyfs.c:842-871 | Overwriting bytes of a data block keeps the whole ownership invariant. |
| Streams.OverwriteContents | drivers/filesystem/nyfs/nyfs.c:842-871 | Overwriting part of one data block changes exactly those bytes of its stream and no byte of any other stream. |
| Streams.RemoveKeepsInv | drivers/filesystem/nyfs/nyfs.c:577-627 | Giving back a whole chain keeps the invariant for everything that stays. |
| Streams.RemoveContents | drivers/filesystem/nyfs/nyfs.c:577-627 | After a chain is given back every other stream and single block has the bytes it had. |
| Streams.StreamFits | drivers/filesystem/nyfs/nyfs.c:533-571 | Because its blocks are distinct and inside the volume, a stream's length always fits 64 bits. |
| Store.BlockStore.AllocBlock | drivers/filesystem/nyfs/nyfs.c:310-351 | First fit: the lowest clear bit is taken, one bit and one count change, and it fails exactly when no block is free. |
| Store.BlockStore.FreeBlock | drivers/filesystem/nyfs/nyfs.c:353-369 | One bit is cleared and the count follows. |
| Store.BlockStore.Resolve | drivers/filesystem/nyfs/nyfs.c:489-531 | The chain walk agrees with the expanded block sequence: block number, or nothing past its end. |
| Store.BlockStore.TotalBlocks | drivers/filesystem/nyfs/nyfs.c:533-571 | The sum over the chain is the length of the expanded block sequence. |
| Store.BlockStore.AppendOne | drivers/filesystem/nyfs/nyfs.c:631-762 | Exactly one block is added to the stream, or disk full with nothing changed; it succeeds exactly when two blocks are free, or one that the last list block can record. |
| Store.BlockStore.GrowTo | drivers/filesystem/nyfs/nyfs.c:809-840 | The growing loop: enough blocks, old bytes a prefix of the new ones; it succeeds exactly when the missing blocks can be appended one after the other, each with a list block if the last one cannot record it, and what room is left afterwards is told too. |
| Store.AfterCost | drivers/filesystem/nyfs/nyfs.c:631-762 | In numbers: twice as many free blocks as are appended always suffice, each appended block costs one or two, and the stream is longer by just as many. |
| Store.ExtendedTwice | drivers/filesystem/nyfs/nyfs.c:809-840 | Growing to one length and then to a greater one succeeds exactly when growing there at once does, and leaves the same room. |
| Store.BlockStore.ReadAt | drivers/filesystem/nyfs/nyfs.c:764-807 | Returns exactly the bytes of the stream in the range, cut at its end. |
| Store.BlockStore.WriteAt | drivers/filesystem/nyfs/nyfs.c:809-871 | Data in place, other old bytes kept, other streams untouched; out of space at most fresh blocks were added at the end; a write inside the stream needs no block and cannot fail. |
| Store.BlockStore.FreeChain | drivers/filesystem/nyfs/nyfs.c:577-627 | Each data block and each list block is freed exactly once: the free count rises by the length of the chain plus its blocks, and only that stream is gone. |
| Store.BlockStore.AllocSingle | drivers/filesystem/nyfs/nyfs.c:1070-1105 | A block outside all streams, holding the given bytes; disk full leaves everything as it was. |
| DirTable.InsertedWellFormed | drivers/filesystem/nyfs/nyfs.c:1221-1305 | A table with the new record at the head of its bucket is well formed: records in their bucket, offsets strictly falling along chains, no two records overlapping. |
| DirTable.DeletedWellFormed | drivers/filesystem/nyfs/nyfs.c:1311-1408 | A table with one record unlinked is well formed. |
| DirBytes.InsertOk | drivers/filesystem/nyfs/nyfs.c:1221-1305 | After the record, bucket-head and header writes, the bytes hold exactly the table with one more binding. |
| DirBytes.RemoveOk | drivers/filesystem/nyfs/nyfs.c:1311-1408 | After the link and header writes of a removal, the bytes hold exactly the table with that binding gone. |
| DirBytes.TableFrame | drivers/filesystem/nyfs/nyfs.c:1221-1305 | Bytes past the free offset are no part of the table: changing only them changes nothing it means. |
| DirHash.Create | drivers/filesystem/nyfs/nyfs.c:1111-1148 | A fresh stream holds the empty table; it succeeds exactly when two blocks are free and otherwise keeps nothing. |
| DirHash.Walk | drivers/filesystem/nyfs/nyfs.c:1150-1219 | The bucket walk ends, because offsets strictly fall, at the record with the name or past the last one; the previous record is known. |
| DirHash.Lookup | drivers/filesystem/nyfs/nyfs.c:1150-1219 | Answers exactly as the finite map from names does, whatever names collide, with the source's errors for missing tables and bad names. |
| DirHash.WriteRecord | drivers/filesystem/nyfs/nyfs.c:1270-1285 | The writes before the commit fail exactly when the record would leave the stream and no block can be appended; either way the table is still the old one, and on failure no block has changed hands. |
| DirHash.LinkRecord | drivers/filesystem/nyfs/nyfs.c:1286-1304 | The two committing writes never need a block, so they cannot fail, and after them the table has the new binding. |
| DirHash.InsertInto | drivers/filesystem/nyfs/nyfs.c:1221-1305 | The map gains exactly one key, or is unchanged; it fails exactly when the record would leave the stream and no block can be appended, and then bitmap, owners and chains are as they were. |
| DirHash.Remove | drivers/filesystem/nyfs/nyfs.c:1311-1408 | The map loses exactly one key, or the lookup's error is returned and nothing changes. |
| DirHash.ListingExact | drivers/filesystem/nyfs/nyfs.c:1955-2048 | The listing has as many places as there are bindings and names each exactly once. |
| DirHash.ReadIndex | drivers/filesystem/nyfs/nyfs.c:1955-2048 | Index i gives place i of the listing; the first index past it gives nothing. |
| Acl.VerdictOrder | drivers/filesystem/nyfs/nyfs.c:960-1005 | The access verdict does not depend on the order of the entries. |
| Acl.VerdictMeans | drivers/filesystem/nyfs/nyfs.c:960-1005 | Bit by bit, on the fields of the entries: refused exactly if a deny entry in force names the caller and meets the request, or some bit asked for is in no allow entry in force that names the caller. |
| Acl.DenyOverrides | drivers/filesystem/nyfs/nyfs.c:960-1005 | An applicable deny entry refuses, whatever other entries are added before or after. |
| Acl.GrantedMeets | drivers/filesystem/nyfs/nyfs.c:985-1005 | A bit is granted exactly when some applicable allow entry carries it. |
| Acl.CheckAces | drivers/filesystem/nyfs/nyfs.c:960-1005 | The two passes over the list compute the declarative verdict. |
| Acl.ModeMeans | drivers/filesystem/nyfs/nyfs.c:945-968 | Without a list the three mode bits of the caller's class decide: the first reading, the second writing and appending, the third executing; nothing else is allowed. |
| Acl.NestingStable | drivers/filesystem/nyfs/nyfs.c:1018-1060 | A chain of directories of any depth has one and the same list from the second level on. |
| Acl.ChildVerdict | drivers/filesystem/nyfs/nyfs.c:1018-1060 | Access to a new child, in terms of its parent's list: refused exactly if an inheritable deny entry names the caller and meets the request, or some bit asked for is in no inheritable allow entry that names the caller, inherit-only entries included. |
| Acl.NoPropagate | drivers/filesystem/nyfs/nyfs.c:1018-1060 | For every list and either kind of child: entries with the no-propagate flag are on the list of a child and on none further down, and the other entries go down as if those had not been there. |
| Acl.NoPropagateNested | drivers/filesystem/nyfs/nyfs.c:1018-1060 | At any depth from two on, a list passes on what it would without its no-propagate entries. |
| Acl.InheritList | drivers/filesystem/nyfs/nyfs.c:1018-1060 | The filtering loop: the child's list is the parent's entries with the needed inherit flag, all of them and in order, each with its id, mask and type, its flags without inherit-only, and without the inherit flags if it was marked no-propagate. |
| Acl.AceRoundTrip | drivers/filesystem/nyfs/nyfs.c:899-932 | An entry survives being stored and parsed. |
| Acl.AceLayout | drivers/filesystem/nyfs/nyfs_disk.h:199-207 | The bytes of a stored entry: id, mask, type, flags, and two zero bytes. |
| Acl.ListRoundTrip | drivers/filesystem/nyfs/nyfs.c:899-932 | A list survives being stored in an overflow block and parsed back, whatever follows it in the block. |
| Volumes.NoiseKeeps | drivers/filesystem/nyfs/nyfs.c:1221-1305 | Stream growth and blocks nobody refers to are invisible: volume invariant and visible tree stay. |
| Volumes.WithNodeKeeps | drivers/filesystem/nyfs/nyfs.c:1651-1872 | A new unnamed inode with fresh streams keeps the invariant and adds one node to the tree. |
| Volumes.WithTableKeeps | drivers/filesystem/nyfs/nyfs.c:1651-1953 | Giving a directory another table keeps the invariant if names stay unique, and changes only that directory's entries. |
| Volumes.WithoutNodeKeeps | drivers/filesystem/nyfs/nyfs.c:1874-1953 | Dropping an unnamed inode keeps the invariant and removes one node. |
| Volumes.WithDataKeeps | drivers/filesystem/nyfs/nyfs.c:1569-1613 | Writing file data keeps the invariant and changes only that node's bytes. |
| Nyfs.Volume.AllocInode | drivers/filesystem/nyfs/nyfs.c:371-412 | First fit in the inode bitmap; fails exactly when none is free; the count stays exact. |
| Nyfs.Volume.GatherAces | drivers/filesystem/nyfs/nyfs.c:899-932 | The whole access list, from inline slots and overflow block. |
| Nyfs.Volume.CheckAccess | drivers/filesystem/nyfs/nyfs.c:934-1005 | Root passes; without a list the mode bits decide; with one only the list does. |
| Nyfs.Volume.InheritAcl | drivers/filesystem/nyfs/nyfs.c:1018-1105 | Inline slots and overflow block together hold exactly the inherited list; overflow exactly when the list does not fit in both, disk full exactly when a block is needed and none is free; every failure keeps nothing. |
| Nyfs.Volume.AddChild | drivers/filesystem/nyfs/nyfs.c:1651-1872 | Create and mkdir: exact status; on success one fresh node with the inherited list under one fresh name and nothing lost, on failure the visible file system unchanged. Overflow exactly when the inherited list is too long; otherwise success exactly when the blocks of the node are free and, if the record leaves the directory's stream, two more, or one that the stream's last list block can record. |
| Nyfs.Volume.Remove | drivers/filesystem/nyfs/nyfs.c:1874-1953 | Unlink: exact status, refusing a non-empty directory; on success one binding and its node are gone, no stream is lost, and the only block lost is the removed inode's overflow block. |
| Nyfs.Volume.RemoveAs | tools/nyfs-utils/src/nyfs_core.c:1580-1655 | The same for callers that tell unlink from rmdir: what is there must be of the expected kind. |
| Nyfs.Volume.ReadData | drivers/filesystem/nyfs/nyfs.c:1536-1567 | Reading on an open handle: the bytes of the file in the range, cut at its size. |
| Nyfs.Volume.Read | tools/nyfs-utils/src/nyfs_core.c:1657-1688 | The same behind the access check, with its error. |
| Nyfs.Volume.WriteData | drivers/filesystem/nyfs/nyfs.c:1569-1613 | Writing on an open handle: data in place and only that file changed, or disk full with nothing visible changed; it succeeds exactly when the blocks it lacks can be appended one after the other, and the room the file then has is told; the volume stays valid exactly when the write carries data or starts within the allocated blocks. |
| Nyfs.Volume.HoldsBounds | drivers/filesystem/nyfs/nyfs.c:809-840 | The same condition in numbers of free blocks: two for each missing block suffice, one for each is needed. |
| Nyfs.Volume.Write | tools/nyfs-utils/src/nyfs_core.c:1690-1733 | The same behind the access check, with its error. |
| Nyfs.Volume.ReadDirectory | drivers/filesystem/nyfs/nyfs.c:1955-2048 | Entry number i of the listing with its inode and type, or the end. |
| Nyfs.Volume.ListingComplete | drivers/filesystem/nyfs/nyfs.c:1955-2048 | The listing of a live directory names each of its entries exactly once. |
| Nyfs.Volume.Rename | drivers/filesystem/nyfs/nyfs.c:2050-2166 | Exact status: one binding moved with the same inode and type when the directory has room for the new record; otherwise disk full, and the old binding is back exactly when there is room for the old record, and lost when there is not. |
| Nyfs.Volume.Format | drivers/filesystem/nyfs/nyfs.c:2308-2482 | Exact status for every geometry; on success a valid volume holding just the root directory, with nothing lost and exact counts. |
| Nyfs.Volume.Layout | drivers/filesystem/nyfs/nyfs.c:2346-2385 | After the superblock come just enough blocks for a bit per inode, for a bit per block, and for 256 bytes per inode, at least one each; then the data. |
| NyfsRuns.Step | tools/nyfs-utils/src/nyfs_core.c:1418-1931 | One operation is one step of the abstract file system, with the status told from the state before; every inode but the root still has a name exactly if it had and the step was no rename without room for either record. |
| NyfsRuns.Run | tools/nyfs-utils/src/nyfs_core.c:1418-1931 | Any run keeps the volume valid and shows a run of the abstract file system with the right answers; at the end every inode but the root has a name if and only if it had at the start and no rename of the run found itself without room for either record. |
| NyfsRuns.AccessKept | drivers/filesystem/nyfs/nyfs.c:934-1005 | Over any run and for as long as a node lives: if all callers are refused writing to it, its bytes stay and it gains no name; if all are refused deleting its children, it loses none; and what it allows to whom never changes. |
| NyfsRuns.FormatAndRun | drivers/filesystem/nyfs/nyfs.c:2308-2482 | The same from a fresh format on. |
| NyfsRuns.RenameOnFullVolume | drivers/filesystem/nyfs/nyfs.c:2140-2153 | A volume of 64 blocks of 512 bytes, formatted full, and a file with a 255-byte name: renaming it to another such name answers disk full and leaves it live without a name. |
| NyfsRuns.BlockLedger | drivers/filesystem/nyfs/nyfs.c:310-430 | In a valid volume a block is used exactly when it has an owner, and both cached counts are exact. |
| NyfsRuns.StreamsNotShared | drivers/filesystem/nyfs/nyfs.c:1651-1953 | Two live inodes share no data stream, no table and no overflow block, and no file shares a stream with a table. |
| NyfsRuns.NamedOnce | tools/nyfs-utils/src/nyfs_core.c:1418-1655 | No inode is named twice, no entry dangles, the root is named nowhere, recorded types are right and link counts are one. |
| FsTree.VolumeNamed | drivers/filesystem/nyfs/nyfs.c:2050-2166 | A valid volume's tree and its record of homes agree both ways. |
| FsTree.NoCycle | drivers/filesystem/vfs.c:1240-1252 | Going down from directory to entry any number of times never comes back to the start. |
| FsTree.MovedRanked | drivers/filesystem/nyfs/nyfs.c:2124-2130 | Moving a node to a directory that does not lie below it creates no cycle. |
| DentryCache.UniqueDentry | drivers/filesystem/vfs.c:465-527 | In a coherent cache an inode has at most one dentry. |
| DentryCache.AncestorCached | drivers/filesystem/vfs.c:1235-1252 | Every inode above a cached inode is cached above it, under its own name in its own directory: nothing the ancestor walk needs can be missing from the cache. |
| DentryCache.OnePath | drivers/filesystem/vfs.c:465-527 | A dentry has one path and a path one dentry. |
| DentryCache.AboveIsPrefix | drivers/filesystem/vfs.c:1240-1252 | One dentry lies above another exactly when its path is a prefix of the other's. |
| DentryCache.CachedLeads | drivers/filesystem/vfs.c:465-527 | A path in the cache is a path in the file system. |
| DentryCache.RenamedCoherent | drivers/filesystem/vfs.c:1261-1279 | Moving a dentry together with the entry it stands for keeps every cached edge true. |
| DentryCache.RenamedPaths | drivers/filesystem/vfs.c:1261-1279 | Moving a dentry moves exactly the cached paths through it. |
| DentryCache.WithChildCoherent | drivers/filesystem/vfs.c:492-522 | Caching an entry the file system has keeps the cache coherent. |
| DentryCache.WithChildPaths | drivers/filesystem/vfs.c:492-522 | Caching an entry adds exactly one cached path. |
| DentryCache.WithoutChildCoherent | drivers/filesystem/vfs.c:1145-1154 | Taking a childless dentry out keeps the cache coherent. |
| DentryCache.WithoutChildPaths | drivers/filesystem/vfs.c:1145-1154 | It takes exactly one cached path away. |
| VfsSpec.ResolutionMeans | drivers/filesystem/vfs.c:465-527 | Whatever is cached: with dentries to spare the superuser resolves exactly the paths that lead somewhere. |
| VfsSpec.SameResolution | drivers/filesystem/vfs.c:465-527 | Two coherent caches with the same paths and as many free dentries answer every resolution alike, however their slots are arranged. |
| Vfs.SelfRenameBreaks | drivers/filesystem/vfs.c:1261-1279 | Renaming a cached entry to its own name hangs a freed dentry back into the tree: no such cache is coherent with any file system. |
| Vfs.VfsCache.FindChild | drivers/filesystem/vfs.c:138-155 | Finds the child with the name, or shows there is none. |
| Vfs.VfsCache.AddDentry | drivers/filesystem/vfs.c:66-108 | The first free slot becomes the first child; fails exactly when all slots are taken. |
| Vfs.VfsCache.Walk | drivers/filesystem/vfs.c:465-527 | Resolution: exact status, with permission asked only for names that are not cached; the dentry reached stands for the inode the path leads to; the cached paths afterwards are the old ones and the prefixes of this one, at the exact cost in dentries. |
| Vfs.VfsCache.FindPath | drivers/filesystem/vfs.c:138-155 | A path is found in the cache exactly when it is cached, at the dentry it leads to. |
| Vfs.VfsCache.Make | drivers/filesystem/vfs.c:969-1101 | Create and mkdir through the cache: coherence and freedom from cycles kept; exact status in every case; one node added, or the tree unchanged; out of dentries, exactly when none is left, the call reports failure although the node is there; which paths are cached afterwards. |
| Vfs.VfsCache.Unlink | drivers/filesystem/vfs.c:1103-1159 | Coherence and freedom from cycles kept; exact status; one node dropped, or the tree unchanged; which paths are cached afterwards. |
| Vfs.VfsCache.IsAbove | drivers/filesystem/vfs.c:1240-1252 | The ancestor walk ends and finds the dentry exactly when it is above. |
| Vfs.VfsCache.NotUnder | drivers/filesystem/vfs.c:1235-1252 | Whenever the check lets a rename pass, the moved inode is not above its new directory in the file system, cached or not. |
| Vfs.VfsCache.EntryLost | drivers/filesystem/vfs.c:1255-1259 | When a directory loses an entry without the cache being told, the cache is coherent if and only if the entry was not cached. |
| Vfs.VfsCache.Rename | drivers/filesystem/vfs.c:1182-1283 | Never a cycle; exact status, each path resolved in a coherent cache whose paths and free dentries are told, refusing exactly a move of a path below itself; one binding moved, or the tree unchanged, or the binding lost when there is room for neither record; the cached paths move along; the cache is coherent afterwards if and only if it was not a cached path renamed to itself or a cached path whose binding was lost. |
| VfsRuns.Step | drivers/filesystem/vfs.c:969-1283 | One path operation is one step with the status told from the moment before and the cached paths told for the moment after; the cache still agrees with the tree exactly unless it is one of the two renames that break it. |
| VfsRuns.Run | drivers/filesystem/vfs.c:969-1283 | Any run of resolve, create, mkdir, unlink and rename: every operation is its step of the file system, no cycle appears, and the cache agrees with the tree after every step; the run goes on to its end unless a rename of a cached path goes to itself or loses its entry, and then just there it stops agreeing. |
| VfsRuns.FormatMountRun | drivers/filesystem/nyfs/nyfs.c:2308-2482 | The same from a fresh format, mounted at the root with an empty cache. |
| VfsRuns.NoDirectoryCycle | drivers/filesystem/vfs.c:1182-1283 | In a volume changed through the cache no directory contains itself at any depth. |
| VfsRuns.CacheTellsTheTruth | drivers/filesystem/vfs.c:465-527 | What a cached path resolves to is what the file system has there. |
| Entries.DecodeEncode | nxkernel/kernel/paging/paging.c:23-24 | Reading a stored page-table entry gives back every field, and the word fits 64 bits (Intel SDM volume 3A, section 4.5). |
| Entries.EntryStored | nxkernel/kernel/paging/paging.c:565-568 | Storing an entry is seen by reading it and by reading no other entry of the table. |
| Entries.ZeroEntry | nxkernel/kernel/paging/paging.c:400-409 | A page of zero bytes is a table with nothing present. |
| Frames.PoppedKeeps | nxkernel/kernel/mm/pfa.c:111-138 | Taking the head of the intrusive list keeps one owner per frame; the next pointer read from the frame is the new head. |
| Frames.PushedKeeps | nxkernel/kernel/mm/pfa.c:38-45 | Threading a frame in front of the list keeps one owner per frame and every link right. |
| Frames.LinkedKeeps | nxkernel/kernel/paging/paging.c:428-450 | Putting a held frame into a table entry, as table or as page, keeps every table of every space right. |
| Frames.UnlinkedKeeps | nxkernel/kernel/paging/paging.c:594-601 | Clearing the entry of a page keeps every table right and leaves the frame held. |
| Frames.WithSpaceKeeps | nxkernel/kernel/paging/paging.c:452-473 | A new root with the two shared entries and nothing else is an empty space beside all others. |
| Translation.PathOfInjective | nxkernel/kernel/paging/paging.c:553-563 | The four table indices determine the page. |
| Translation.ViewIs | nxkernel/kernel/paging/paging.c:638-665 | The four-level walk through memory finds exactly the mapped pages, with the frame and rights of the last-level entry (Intel SDM volume 3A, sections 4.5 and 4.6). |
| Processor.WalkIsView | nxkernel/kernel/paging/paging.c:552-563 | For every user address a walk as the processor's manual has it, on 64-bit words of memory and nine address bits a level, gets to the frame and rights the view has for its page, or nowhere if it has none (Intel SDM volume 3A, sections 4.5 and 4.6). |
| Translation.LinkedTableView | nxkernel/kernel/paging/paging.c:428-450 | A new intermediate table changes no translation. |
| Translation.LinkedPageView | nxkernel/kernel/paging/paging.c:563-571 | Mapping adds exactly one translation. |
| Translation.UnlinkedPageView | nxkernel/kernel/paging/paging.c:594-601 | Unmapping removes exactly one translation. |
| Translation.WriteXorExecute | nxkernel/kernel/paging/paging.c:546-548 | With execute-disable no reachable user page is both writable and executable. |
| Translation.SharedHalf | nxkernel/kernel/paging/paging.c:452-473 | In every space, after any operation, entry 256 is the shared direct map, entry 511 the shared kernel image, and nothing lies between. |
| Translation.NoSharing | nxkernel/kernel/mm/pfa.c:38-150 | No frame is mapped at two pages, in one space or in two. |
| Effects.OthersUndisturbed | nxkernel/kernel/paging/paging.c:526-635 | An operation on one space leaves translations and page bytes of every other space as they were. |
| Effects.PaidTwice | nxkernel/kernel/paging/paging.c:428-450 | What growth costs adds up: the nodes of both steps, one frame each, none counted twice. |
| Paging.Machine.Init | nxkernel/kernel/mm/pfa.c:47-109 | From disjoint regions, exactly the whole frames below the limit outside low memory, kernel and initrd are managed, each on the free list once. |
| Paging.ReservedMeans | nxkernel/kernel/mm/pfa.c:29-36 | A frame is reserved exactly when one of its bytes is in the first megabyte, the kernel image or the initial ram disk. |
| Paging.InRegionMeans | nxkernel/kernel/mm/pfa.c:47-109 | A frame is taken from a region exactly when all its bytes are in it and below the limit, and the region is of usable memory and does not wrap round. |
| Paging.Machine.Alloc | nxkernel/kernel/mm/pfa.c:111-138 | A zeroed frame from the head of the list; fails exactly when the list is empty. |
| Paging.Machine.Free | nxkernel/kernel/mm/pfa.c:140-150 | A bad address is refused with nothing changed; otherwise the frame is back at the head. |
| Paging.Machine.NextLevel | nxkernel/kernel/paging/paging.c:428-450 | The table below an entry, made on demand for exactly one frame; translations and pages unchanged; it fails exactly when a table is missing and no frame is left. |
| Paging.Machine.MapPage | nxkernel/kernel/paging/paging.c:526-571 | Every refusal with its status and nothing changed; otherwise one translation added, already mapped, or out of memory with all translations as before; the cost is exactly the tables missing on the way, and too few frames for them is when it runs out. As the processor walks: afterwards each address of the page leads to the byte at the same offset of the frame, with the rights asked for, and every other user address where it led. |
| Paging.Machine.UnmapPage | nxkernel/kernel/paging/paging.c:573-601 | Exact status; one translation removed and its frame in the caller's hands; as the processor walks, the addresses of the page lead nowhere and all others where they led. |
| Paging.Machine.UnmapFreePage | nxkernel/kernel/paging/paging.c:603-635 | Exact status; one translation removed and its frame at the head of the free list; as the processor walks, the addresses of the page lead nowhere and all others where they led. |
| Paging.Machine.UserPageOk | nxkernel/kernel/paging/paging.c:638-665 | True exactly when the processor's walk grants user access at every level. |
| Paging.Machine.IsUserRange | nxkernel/kernel/paging/paging.c:667-690 | True exactly when the range is empty or lies below the user limit without wrapping and the processor grants user mode access to every byte of it. |
| Paging.Machine.CreateSpace | nxkernel/kernel/paging/paging.c:452-473 | An empty space with a root of its own; fails exactly when no frame is free. |
| Paging.Machine.DestroySpace | nxkernel/kernel/paging/paging.c:475-524 | Exactly the frames the space owned become free, each once; every other frame keeps owner and contents. |
| UserPages.AddPage | nxkernel/kernel/process/elf.c:129-160 | Exact status; one page allocated, filled and mapped at the cost of its missing nodes, or, whatever step fails, the frame back and no translation changed. |
| UserPages.ByteIsSeen | nxkernel/kernel/paging/paging.c:638-665 | The byte a process has at an address is the byte the processor lets it read there. |
| Umem.FreePages | nxkernel/kernel/process/umem.c:15-21 | Exactly the pages of the range are unmapped and freed; the others keep frame and bytes. |
| Umem.AddPages | nxkernel/kernel/process/umem.c:59-80 | Out of memory exactly when there are fewer free frames than missing nodes; all pages of the range added, zero, or all translations and data frames back. |
| Umem.Brk | nxkernel/kernel/process/umem.c:23-101 | Exact status: every refusal, and out of memory exactly when a growth needs more frames than are free; on success the mapped heap pages are exactly those below the new break; out of memory break, translations, frames and bytes are as before. |
| Umem.HeapSeen | nxkernel/kernel/process/umem.c:23-101 | As the processor walks: from the start of the heap to the page below the stack exactly the addresses up to the end of the break's page lead somewhere, for user mode to read and write and not to execute. |
| Umem.HeapBytes | nxkernel/kernel/process/umem.c:23-101 | Whichever way the break moves, bytes below both breaks are kept and bytes on new pages are zero. |
| Elf.HeaderCheck | nxkernel/kernel/process/elf.c:179-206 | An accepted header has its whole program header table inside the file (System V ABI, chapter 5). |
| Elf.ElfAccepted | nxkernel/kernel/process/elf.c:179-241 | Exactly which files pass all checks, on their bytes: x86-64 executables with a whole table of 1 to 32 headers, each loadable one within the file and the program area, and one of them executable and holding the entry point (System V ABI, chapters 4 and 5). |
| Elf.ScanHeaders | nxkernel/kernel/process/elf.c:208-241 | The pass accepts exactly the tables whose loadable segments are all sound and hold the entry point in an executable one; the image end is the largest page end. |
| Elf.LoadSegment | nxkernel/kernel/process/elf.c:118-163 | All pages of the segment with the file's bytes, zeros after, and the requested rights: exactly when none of them is mapped, it is not both writable and executable where that is refused, and there are frames for its missing nodes; otherwise the answer of the first page that cannot be added. |
| Elf.ElfLoad | nxkernel/kernel/process/elf.c:165-252 | Exact status of the checks; then success exactly when no two segments share a page or meet one already mapped, none is both writable and executable where that is refused, and there are frames for all missing nodes; otherwise the first page that cannot be added, in the order of the segments, decides the answer, and Permission means that some header of the file sets both bits. On success exactly the segments' pages were added, each byte of them, as the processor finds it, with the rights in the file's flags and the contents in the file; the entry point is executable, and the image end is page-aligned below the stack guard. |
| Elf.LoadedBytes | nxkernel/kernel/process/elf.c:118-163 | Every byte of every loaded page: the file's up to the file size, zero after. |
| Elf.SegmentInPlace | nxkernel/kernel/process/elf.c:118-163 | From the bytes of the file alone: each address of a loadable header's pages leads to a user page, writable exactly if bit 1 of its flags is set, executable exactly if bit 0 is, holding the file's byte up to the file size and zero after (System V ABI, chapter 5). |
| Elf.EntryIsExecutable | nxkernel/kernel/process/elf.c:226-234 | The entry point is on an executable user page. |
| Scheduling.SuccessorExists | nxkernel/kernel/process/process.c:300-306 | When the current process stops, somebody can run: the panic after the scheduler call is unreachable. |
| Scheduling.SwitchedOk | nxkernel/kernel/process/process.c:241-276 | After a switch exactly the chosen process runs, its address space is loaded, and idle is ready whenever it is not running. |
| Scheduling.PassedOver | nxkernel/kernel/process/sched_rr.h:20-38 | While a process waits, ready or with its sleep over, the scheduler takes the processor from the current one; and who is passed over gets strictly closer. |
| Scheduling.RemovedOk | nxkernel/kernel/process/process.c:27-55 | Unlinking a process that does not run keeps the list through exactly the used slots. |
| Kernels.Kernel.PickNext | nxkernel/kernel/process/sched_rr.h:20-38 | The pointer walk goes round once and returns the first process that may run, waking it if it slept; it finds one exactly if some process is ready or has slept out. |
| Kernels.Kernel.Schedule | nxkernel/kernel/process/process.c:241-276 | The first runnable process gets the processor; a stopped process always finds a successor. |
| Kernels.Kernel.Reap | nxkernel/kernel/process/process.c:27-55 | Exactly the dead processes leave the table; their frames become free, every other frame is untouched, and nobody waits longer. |
| Kernels.Kernel.Terminate | nxkernel/kernel/process/process.c:278-311 | Exact status; the process is gone with its memory, or, if it ends itself, another runs. |
| Kernels.Kernel.Exit | nxkernel/kernel/process/process.c:313-322 | The process is terminated with its code, its memory still there until reaped, the first eligible process in circle order runs, and nothing else in the process table changes. |
| Kernels.Kernel.Sleep | nxkernel/kernel/process/process.c:334-360 | Idle is refused; any other process is blocked until exactly as many ticks from now as asked for, at least one; the first eligible process in circle order runs, so the interrupted case cannot occur, and nothing else in the process table changes. |
| Kernels.Kernel.NewProcess | nxkernel/kernel/process/process.c:165-239 | A new ready process at the end of the list with the next pid, exactly when a slot is free or held by a dead process; otherwise nothing has changed, not even by reaping. |
| Kernels.Kernel.MapUserStack | nxkernel/kernel/process/spawn.c:19-48 | Exactly the stack pages are added, zero, and not the guard page; it succeeds exactly when none is mapped and there are frames for the missing nodes. |
| Kernels.Kernel.Spawn | nxkernel/kernel/process/spawn.c:50-91 | A program that could be opened starts exactly when its file is sound, no two segments share a page, none is both writable and executable where that is refused, the free frames cover a root and every table and page of its segments and its stack, and the process table has a slot; otherwise the first obstacle met, from the first page of the first segment on, is the one answered. On success program, stack and an empty heap are in a space of their own; on failure the process table is as it was and every frame is free or owned as it was. |
| Kernels.Kernel.Started | nxkernel/kernel/process/spawn.c:50-91 | The slot of the new process, on its fields and as the processor finds its memory: it begins at the file's entry point, which it may execute; its stack pointer has 48 zero bytes above it in 64 KiB of zeros it may write and not execute; its segments are in place; its heap is empty and begins where the image ends; nothing else is mapped. |
| KernMem.BuiltAndDestroyed | nxkernel/kernel/process/spawn.c:50-91 | Building up a space and destroying it returns exactly what was taken. |
| Kernels.Kernel.MoveBreak | nxkernel/kernel/process/umem.c:23-101 | The break of the current process moves, or is refused, exactly as for its address space, and no other process's memory changes. |
| KernelRuns.Run | nxkernel/kernel/process/process.c:27-360 | Any run of spawn, thread creation, yield, sleep, exit, kill, reap, break and tick: every operation does its step, with its answer and its effect on process table and memory told from the moment before, and every moment is good. |
| KernelRuns.Perform | nxkernel/kernel/process/process.c:27-360 | One operation is its step: spawn and break with their exact outcome, a kill with the memory it frees, exit and sleep with the process that runs next, reap with the frames that come back, and nothing besides. |
| KernelRuns.BootAndRun | nxkernel/kernel/mm/pfa.c:47-109 | The same from power-on: the free list filled from the memory map, the idle process alone, then any operations. |
| KernelRuns.BoundedWaiting | nxkernel/kernel/process/sched_rr.h:20-38 | However long a stretch of a run, a process that waits all along, ready or with its sleep over, is passed over by fewer scheduler calls than there are other processes, not counting one for each process created meanwhile. |
| KernelRuns.Served | nxkernel/kernel/process/sched_rr.h:20-38 | In any run, who waits and is not ended gets the processor within as many scheduler calls as there are other processes, and one for each created meanwhile: running, otherwise as it was, and with no wake tick if it slept. |
| KernelRuns.SleepsOut | nxkernel/kernel/process/process.c:334-360 | In any run, a process that went to sleep for n ticks at tick t is not the current one at any later moment whose tick is below t + max(1, n), whatever happens in between. |
| KernelRuns.SleepEnds | nxkernel/kernel/process/process.c:334-360 | In any run, a process that went to sleep for n ticks at tick t and is not ended has the processor again, at tick t + max(1, n) or later and with no wake tick, once that tick has come and as many scheduler calls were made since as there are other processes, and one for each created meanwhile. |
| KernelRuns.ReapReturns | nxkernel/kernel/process/process.c:27-55 | Reaping makes exactly the frames of the dead free, touches no other, and raises the free count by their number. |
| KernelRuns.FramesConserved | nxkernel/kernel/mm/pfa.c:38-150 | No operation gains or loses a managed frame, so at every moment of a run the free frames and those in address spaces are the same set together. |
| KernelRuns.OthersKept | nxkernel/kernel/process/process.c:27-360 | No operation touches the memory of a process that lives on, except its own break: same pages, same rights, same bytes. |
| KernelRuns.FrameLedger | nxkernel/kernel/mm/pfa.c:38-150 | Every managed frame is on the free list exactly once or is one node of the space of exactly one process; the free count is the list's length. |
| KernelRuns.LoadedSpace | nxkernel/kernel/process/process.c:241-276 | One process runs, it is the current one, and the loaded address space is its own and has not been destroyed. |
| Fat16.BootIsSane | drivers/filesystem/fat16/fat16.c:781-860 | Every accepted boot sector puts the table entry of each cluster before the root directory, all data inside the volume, and all cluster numbers below the marks (Microsoft FAT specification, FAT Type Determination). |
| Fat16.BootMeans | drivers/filesystem/fat16/fat16.c:781-860 | Exactly the boot sectors that describe a usable layout are accepted, and with that layout: reserved sectors, all copies of the table, the root directory in just the sectors it needs, and as many whole clusters as the rest holds (Microsoft FAT specification, FAT Data Structure). |
| Fat16.ClusterInVolume | drivers/filesystem/fat16/fat16.c:156-165 | A valid cluster's sectors are in the volume, its table entry is in the table, and its number is neither the bad mark nor an end mark. |
| Fat16.GetFatEntry | drivers/filesystem/fat16/fat16.c:295-321 | Only valid clusters have an entry, and it is the one in the table. |
| Fat16.GetNthCluster | drivers/filesystem/fat16/fat16.c:327-362 | Agrees with following the chain step by step, for any table content. |
| Fat16.LongChainsRepeat | drivers/filesystem/fat16/fat16.c:499-586 | A walk as long as the volume has clusters that is still at a cluster has been somewhere twice. |
| Fat16.ScanSector | drivers/filesystem/fat16/fat16.c:462-497 | The first hit or the end mark among the sixteen entries, or neither. |
| Fat16.FindEntry | drivers/filesystem/fat16/fat16.c:499-586 | For any table content the search ends, reads only sectors of the volume, and reports the first hit, the end of the directory, or a chain that leaves the volume or is too long. |
| Fat16.FoundOnDisk | drivers/filesystem/fat16/fat16.c:462-497 | The bytes of what was found, at its place on the disk: an entry in use, no part of a long name, no volume label, with the name sought (Microsoft FAT specification, FAT Directory Structure). |
| Fat16.FindRootEntry | drivers/filesystem/fat16/fat16.c:516-538 | The same for the fixed run of root directory sectors. |
| Fat16.FileRead | drivers/filesystem/fat16/fat16.c:688-754 | The slice of the file's bytes in the range, cut at its size; it fails exactly when it wants a byte within the size that the chain does not reach, and the first such byte decides the error: the chain ended, or it left the volume or is too long. |
| Fat16.ContentBytes | drivers/filesystem/fat16/fat16.c:688-754 | The concatenated clusters of a chain have exactly the bytes the chain gets to, and are whole exactly when the chain has that many clusters. |
| Fat16.ReadIsSlice | drivers/filesystem/fat16/fat16.c:688-754 | What the cluster loop returns byte by byte is a slice of the file, or it fails on the first byte the file does not have, with its error. |
| Fat16.FileComplete | drivers/filesystem/fat16/fat16.c:688-754 | A file has all its bytes exactly when its chain has the clusters its size needs; then every read succeeds. |
| Fat16.FileOnDisk | drivers/filesystem/fat16/fat16.c:729-748 | For a chain read off the bytes of the table: each byte of the file is the one at its offset in that cluster of the data area (Microsoft FAT specification, FAT and Cluster Mapping). |
| Fat16.ReadPieces | drivers/filesystem/fat16/fat16.c:688-754 | Reads in pieces of any sizes, each where the last ended, are put together one read, and fail exactly when that would, with the same error. |
| Handles.HandleTable.Alloc | nxkernel/kernel/syscall/handles.c:30-60 | The first free slot, with the requested rights cut to the known ones and its old generation; fails exactly when all are open. |
| Handles.HandleTable.Lookup | nxkernel/kernel/syscall/handles.c:62-87 | Accepts exactly the values that name an open slot of the right generation with the required rights. |
| Handles.HandleTable.Close | nxkernel/kernel/syscall/handles.c:89-107 | Empties exactly that slot and moves its generation on. |
| Handles.HandleTable.Discard | nxkernel/kernel/syscall/handles.c:109-119 | Empties the slot and moves its generation on, in 32-bit arithmetic. |
| Handles.HandleTable.Duplicate | nxkernel/kernel/syscall/syscall.c:364-398 | Exact status, with the error of opening the file again passed on; the new handle stands for the same object with exactly the rights that are both held and asked for; a failed duplication leaves every open handle as it was. |
| Handles.Run | nxkernel/kernel/syscall/handles.c:30-119 | Any run: every allocation, duplication and close is its step with its exact answer, and never rewrites what handles were issued for. |
| Handles.StepKeeps | nxkernel/kernel/syscall/handles.c:30-119 | A handle in use stays as it is through any operation that does not close that very value. |
| Handles.UnclosedResolves | nxkernel/kernel/syscall/handles.c:62-87 | In any run, a handle that was issued and that no later operation closed names its slot to the end, with the object and rights it was issued with. |
| Handles.ClosedRefused | nxkernel/kernel/syscall/handles.c:89-107 | In any run, a handle that was closed is refused from then on, unless its slot is open and was closed a multiple of 2^32 times since it was issued. |
| Handles.StaleRefused | nxkernel/kernel/syscall/handles.c:89-107 | A closed handle is accepted again exactly when its slot is open and has been closed a multiple of 2^32 times since; never before. |
| Handles.RightsShrink | nxkernel/kernel/syscall/syscall.c:364-398 | In any run, along a chain of duplications, each of the handle the one before issued and with anything else in between, every handle has only rights that each earlier one had. |
| FileIo.OpenFile.Read | drivers/filesystem/vfs.c:850-872 | The file system's read, on NyFS or FAT16, at the offset, and the offset moves by the bytes returned. |
| FileIo.OpenFile.Write | drivers/filesystem/vfs.c:874-896 | The file system's write at the offset: on NyFS the file takes just these bytes or, out of space, nothing changes, and when each happens; FAT16 refuses; the offset moves only on success. |
| FileIo.OpenFile.ReadPieces | drivers/filesystem/vfs.c:850-872 | Reads in pieces of any sizes, through the file system, are put together one read of the file. |
| FileIo.OpenFile.SysRead | nxkernel/kernel/syscall/syscall.c:180-227 | On every path, with copies failing at will and files whose chains break off, the offset moves by exactly the count returned and the user got just those bytes of the file; the first chunk that the file cannot supply or whose copy fails decides the answer, count or error, and without one the call is answered in full. |
| FileIo.DataJoin | nxkernel/kernel/syscall/syscall.c:230-277 | A write, and a write where it ended, make the longer write. |
| FileIo.OpenFile.SysWrite | nxkernel/kernel/syscall/syscall.c:230-277 | On every path the offset moves by exactly the count returned and just that much of the user's bytes is in the file where the offset was, every other byte and every other file as before; the first chunk whose copy fails or whose blocks, judged by the volume before the call, cannot be had decides the answer, and without one the call is carried out in full. |

## Left out

- Device errors, corrupt images, checksums and the byte layout of superblock, bitmaps and inode table: these are sequences and records here; branches that only a corrupt image reaches are shown to be dead instead of being modelled.
- The name hash is an arbitrary function and CRC32 is absent; nothing depends on their values.
- Volumes whose byte size exceeds 64 bits are excluded from format; the source does not check for them.
- Locks, interrupt masking, vnode and open-handle pools, and writes through handles kept open across unlink.
- The branch of directory insertion that creates a missing table: every live directory has one.
- Create and mkdir share one method, with a flag for the difference.
- Vfs.VfsCache.Walk: paths come split at slashes, from the root of one namespace.
- Vfs.VfsCache.Rename: caches are described by their cached paths and free dentries, not slot by slot; the one a rename of a cached path to itself leaves behind is not described, as it breaks coherence.
- DentryCache.UniqueDentry: sibling links are a sequence per dentry, so the truncation of a sibling list when a freed slot is reused is not shown.
- Unmount, mounts below the root, namespace aliases and the current directory.
- Boot-time page tables, large pages, the kernel's own address space, TLB and accessed or dirty bits set by hardware.
- Paging.Machine.MapPage: the cache-control and global bits of an entry are stored, but nothing is stated about them.
- Paging.Machine.DestroySpace: the four nested loops are one recursive method, level by level, in the same order.
- Umem.Brk: tables made for a growth that then fails stay in the address space; they are counted as its own and returned with it.
- Kernel stacks, saved registers, pid wrap-around after 2^32 processes, tick overflow, exit-code queries; handles are closed elsewhere.
- Kernels.Kernel.Spawn: opening the file is reduced to the status it answers and what the file contains; reads that fail while it is loaded are not modelled.
- Fat16.FindEntry: the comparison of 8.3 names is a parameter.
- FileIo.OpenFile.SysWrite: console output is not modelled.
- Standard handles and closing all handles of a process; seek and stat.
- Multiboot parsing, drivers, console, interrupt and system-call entry, errno mapping, FUSE glue and the command-line tools.
