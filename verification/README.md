# Kryos in Dafny

A model of the Kryos kernel's storage, memory, process and loading code, with proofs of what
that code keeps, undoes and conserves. Each module follows one source file or a part of it. Code that changes
state is modelled by classes and methods whose contracts tie the new state to the old one; what
holds over many calls is stated about pure views of that state. `dafny verify dfyconfig.toml`
covers all files.

| part | modules |
|---|---|
| KFS file system (`kernel/fs/kfs.c`) | `Bits`, `KfsFormat`, `KfsDevice`, `KfsPages`, `KfsFile`, `KfsContent`, `KfsVolume`, `KfsDirent`, `KfsDir`, `KfsNames`, `KfsNamespace`, `KfsCreate`, `KfsStatus`, `KfsRun`, `KfsRoundTrip`, `KfsExamples` |
| its formatter and checker (`scripts/`) | `Mkfs`, `Kfsck` |
| physical and virtual memory | `Pmm`, `Paging`, `Vmm` |
| kernel heap | `Blocks`, `HeapList`, `Heap` |
| threads and processes | `Ring`, `Sched`, `Processes`, `Wait`, `WaitExamples` |
| path resolution | `Vfs` |
| program loading | `UserMemory`, `ElfStack`, `Elf` |
| user-space allocator | `Blocks`, `UserAlloc` |

## Main results

- **KFS block ownership.** A volume is the value a raw array of 512-byte blocks denotes. `Mkfs.Build`
  establishes the invariant (every block reached from an allocated inode is in the data area, marked
  and has one owner, and the namespace is a tree). `KfsRun.Run` follows any run of calls up to and with
  the first one that breaks the invariant; ownership holds throughout, the whole invariant exactly as
  long as no call broke it, and each way to break it has its exact condition. Nothing is said about
  calls made after that. The marked data blocks are exactly the reached ones exactly as long as no
  failed write lost its indirect block; `Kfsck.PassesIffClean` says what the checker script adds.
- **KFS namespace.** While the invariant holds, names are unique per directory, every allocated inode but
  the root has exactly one proper name, `..` is the directory that holds it, and removal orphans nothing.
  Rewriting a directory keeps the tree exactly when the new entries list the same (`KfsNames.RelistTree`).
  Creating and removing change exactly one path from the root (`KfsNames.AddPaths`, `KfsNames.RemovePaths`), and
  `KfsStatus` reads every answer of lookup, create, unlink and rmdir off entries, types, sizes and free blocks.
- **KFS contents.** Writes refine byte sequences, short writes included; reads return the matching slice;
  directory bytes refine entry lists through append and compaction. Host files survive formatting, mounting, lookup
  and reading byte for byte, and what was created and removed leaves no trace in the namespace (`KfsRoundTrip`).
- **KFS checker.** On any volume, sound or not, the script passes exactly the undamaged ones: each kind of damage is
  written out over pointers, marks and record bytes (`Kfsck.PassesMeans`).
- **Physical memory.** After any boot a frame is free exactly when a usable region reaches into it, it lies behind
  the bitmap and no reserved region reaches into it. The counter is off by exactly the change of one bit, and no run of
  allocations and frees changes that; no frame is held twice.
- **Page tables.** The four-level tree refines a flat map; failed maps change no translation; tearing an
  address space down returns exactly its tables; the processor's walk finds exactly the page that was
  mapped, with exactly its rights, the right to execute included.
- **Heap.** Blocks tile the committed range through splits, merges and partial growth, for requests of every
  size; live payloads are disjoint and untouched by header writes; freeing undoes allocating. The number of
  passes, the growth and the answer of kmalloc are exact, wrapped arithmetic included. On any nonempty list of blocks
  kheap_verify finds no fault exactly when they tile the range, are merged and are linked both ways.
- **Scheduling and waiting.** A thread that yields or stays ready runs within n + k calls, and a thread that
  runs never makes the scheduler halt. In any run, a process loses no wakeup exactly
  until an event of two named kinds, and no process is reaped twice.
- **Whole runs.** Every `Run` returns a ghost trace of abstract states in which each call is related to the next
  by what that call does, so that the statements about runs are about these calls and no others.
- **Loading and resolving.** Segment bytes are exact, and so is the argument stack exactly when there is memory
  for it. A path resolves exactly along a chain of lookups through its components, and fails exactly where one
  stops; the two path resolvers agree, and equivalent paths resolve alike exactly when stated.

## Where a promised property does not hold of the code

Each has an input or a run that shows it, and the exact condition under which the code does meet the property.

| what fails | an input that shows it | the exact condition |
|---|---|---|
| A directory entry can be cut short by a full disk, since create ignores the byte count of its append. | `KfsExamples.CutShortRun` | `KfsCreate.ShortCreate` is false, in `KfsCreate.Create` |
| A write that fails between the indirect block and the data block loses the indirect block. | `KfsExamples.LostBlockRun` | `KfsFile.LosesIndirect` is false, in `KfsFile.Write` |
| Writing past the end can leave a hole, which later reads answer with ENOENT. | `KfsExamples.HoleRun` | `KfsContent.PutSolid` |
| Truncation does not look at the inode type. | `KfsExamples.EmptiedRun` | `KfsRun.TruncateKeepsIff` |
| Neither does a write. | `KfsExamples.ScribbledRun` | `KfsRun.WriteKeepsIff` |
| The frame counter drifts when memory ends inside a page. | `Pmm.UnalignedMemoryMiscounts` | `Pmm.Boot`, from `Pmm.MarkAccounting` |
| Marking that page can touch the byte behind the bitmap. | `Pmm.StrayByteCleared` | `Pmm.StrayByte` |
| The reaper stops after one removal when the head of the ring is dead. | `Ring.DeadHeadHidesOthers` | `Ring.ReapedIsLiving` |
| A second thread that waits in a process displaces the first. | `WaitExamples.SecondWaits` | `Wait.BlockKeepsIff` |
| Orphans reach the kernel's own process without a wakeup. | `WaitExamples.OrphanArrives` | `Wait.OrphansIff` |
| A doubled slash makes a device name another path. | `Vfs.DeviceSlashDiffers` | `Vfs.SlashesAndDots` |
| Rounding makes a kernel allocation smaller than the request. | sizes above 2^64 - 16 | `Heap.AlignedEnough`, in `Heap.Heap.KMalloc` |
| kmalloc may not return, or take every page one by one first. | `Heap.HugeRequest` | `Heap.Kinds`, in `Heap.Heap.KMalloc` |
| The test of the reserved end wraps, and the heap grows past it. | `Heap.PastTheReserve` | `Heap.ReservedTest`, `Heap.StaysReserved` |
| sbrk adds modulo 2^64, so that malloc can move the break down and hand out memory twice. | `UserAlloc.BreakMovesDown` | `UserAlloc.Heap.Malloc`, `UserAlloc.TotalEnough` |
| sys_brk grants a break in the last page of the address space without mapping anything. | a break above 2^64 - 4096 | `UserAlloc.PagesCover` |
| Arguments that need more than the stack's pages are dropped, or written over what lies below. | `ElfStack.LongArgument` | `ElfStack.BuildStack` |
| The stack pointer handed to a program is not always a multiple of 16; `_start` aligns it before it calls main. | no arguments and no environment | `ElfStack.StackPointerMeans` |
| kheap_verify checks nothing when the list is empty. | a null head with committed pages | `Heap.Heap.Verify` |

## Where code and documents disagree

The model follows the code.

- The design note on KFS puts the inode bitmap at block 65 and the block bitmap at 66; the formatter and the
  kernel have the block bitmap at 65 to 72 and the inode bitmap at 73.
- The header of the virtual memory manager says that destroying an address space frees all user mappings; the
  code frees the tables and leaves the mapped frames to their owners.
- The two walks of the virtual memory manager disagree on 1 GiB pages: vmm_get_phys translates none of them,
  vmm_is_user_readable accepts them. `Vmm.Vmm.GetPhys` and `Vmm.Vmm.IsUserAccessible` state both against the
  processor's walk.

## Model

| member | source | states |
|---|---|---|
| `KfsFormat.GetPutInode` | kernel/fs/kfs.c:73-88 | rewriting one of the eight inode slots of a block stores that inode and leaves the other seven as they were |
| `KfsFormat.FlipBlockBit` | kernel/fs/kfs.c:127-160 | on the raw disk, flipping one bit of the block bitmap flips that block's mark in the volume the disk denotes and changes no other mark, inode or data block |
| `KfsFormat.FlipInodeBit` | kernel/fs/kfs.c:90-125 | the same for the inode bitmap |
| `KfsFormat.StoreInode` | kernel/fs/kfs.c:73-88 | writing one inode changes that inode and nothing else in the volume |
| `KfsFormat.StoreData` | kernel/fs/kfs.c:413-484 | writing a block of the data area changes that block and nothing else in the volume |
| `KfsFormat.SuperblockOnDisk` | include/kfs.h:34-49 | where the eleven fields of the superblock stand, in bytes |
| `KfsFormat.MarksOnDisk` | kernel/fs/kfs.c:90-160 | a block or an inode is marked exactly when its binary digit is set: 4096 to a sector, eight to a byte, lowest first |
| `KfsFormat.InodeOnDisk` | include/kfs.h:51-60 | where the fields of an inode stand: 64 bytes each, eight to a block, little-endian words |
| `KfsFormat.KryosFits` | scripts/mkfs_kfs.py:9-22 | the layout that the formatter writes is one that the model covers |
| `KfsDevice.SyncedAfterMark` | kernel/fs/kfs.c:98-147 | writing the one sector that holds a flipped bit keeps the cached bitmap byte-identical to the sectors on disk |
| `KfsDevice.WriteThrough` | kernel/fs/kfs.c:151-160 | a set or clear of one cached bit followed by its sector write: cache and disk stay equal and the disk changes by exactly that bit |
| `KfsDevice.Kfs.constructor` | kernel/fs/kfs.c:32-48 | mounting loads caches that agree with the bitmap sectors |
| `KfsDevice.Kfs.ReadInode` | kernel/fs/kfs.c:50-71 | EINVAL past the table, ENOENT for a free inode, otherwise the stored inode |
| `KfsDevice.Kfs.WriteInode` | kernel/fs/kfs.c:73-88 | exactly that inode changes; caches stay in agreement with the disk |
| `KfsDevice.Kfs.AllocBlock` | kernel/fs/kfs.c:127-149 | the lowest unmarked data block, marked and zeroed; ENOSPC exactly when there is none, and then nothing changes |
| `KfsDevice.Kfs.FreeBlock` | kernel/fs/kfs.c:151-160 | exactly that block becomes unmarked, in the cache and on disk |
| `KfsDevice.Kfs.AllocInode` | kernel/fs/kfs.c:90-114 | the lowest unmarked inode above the root, marked and initialised; ENOSPC exactly when there is none |
| `KfsDevice.Kfs.FreeInode` | kernel/fs/kfs.c:116-125 | exactly that inode becomes unmarked |
| `KfsPages.AddPointer` | kernel/fs/kfs.c:162-202 | setting an empty direct or indirect slot to a fresh zeroed block keeps ownership (data area, marked, one owner), leaves every page as it was and maps one more |
| `KfsPages.RemovePointer` | kernel/fs/kfs.c:379-400 | clearing a slot and unmarking its block keeps ownership and unmaps exactly that page |
| `KfsPages.StorePage` | kernel/fs/kfs.c:448-465 | overwriting a mapped page changes that page only |
| `KfsPages.Frame` | kernel/fs/kfs.c:206-224 | a file whose own blocks hold the same data has the same pointers, blocks and pages, whatever happens elsewhere |
| `KfsFile.MapOrAllocBlock` | kernel/fs/kfs.c:162-202 | maps the page with one or two blocks, or fails exactly when too few are free; when the indirect block was had and the data block was not, that block is lost to the volume |
| `KfsFile.WriteChunk` | kernel/fs/kfs.c:437-475 | one turn of the write loop stores the chunk at its place and grows the size |
| `KfsFile.Write` | kernel/fs/kfs.c:413-484 | a write that reports n bytes has put exactly src[..n] at the position and moved it; it is short only when the next page cannot be mapped; a failed write changes nothing except, exactly in the lost-indirect case, one leaked block |
| `KfsFile.MapBlock` | kernel/fs/kfs.c:206-224 | the block of a mapped page; ENOENT for a hole |
| `KfsFile.Read` | kernel/fs/kfs.c:227-271 | the bytes of the file from the position on, cut at its end, across the direct/indirect boundary; it succeeds exactly when every page they lie in is mapped |
| `KfsFile.FreeInodeBlocks` | kernel/fs/kfs.c:379-400 | unmarks every block the inode reaches, the indirect block included, and no other |
| `KfsFile.Truncate` | kernel/fs/kfs.c:402-411 | the file becomes empty, its blocks are free, nothing else changes |
| `KfsContent.PutContent` | kernel/fs/kfs.c:413-484 | a write turns content c into c[..off] + bytes + c[off+n..], with zeros between the old end and a later off |
| `KfsContent.PutSolid` | kernel/fs/kfs.c:206-224 | a write leaves a file without holes exactly when it starts no further than the block behind the last one |
| `KfsVolume.FileStepSound` | kernel/fs/kfs.c:162-202 | work on one file keeps the volume sound and leaks nothing; every other file keeps its blocks and contents |
| `KfsVolume.LeakedSound` | kernel/fs/kfs.c:178-193 | a lost indirect block keeps every owner and every file but leaves a marked block without an owner |
| `KfsDirent.RecordRoundTrip` | kernel/fs/kfs.c:313-330 | a record written at an offset reads back as its entry |
| `KfsDirent.EncodeMeans` | include/kfs.h:62-70 | the bytes of a record: inode, length, type, the name, and zeros up to the next multiple of four behind at least one |
| `KfsDirent.FindEntry` | kernel/fs/kfs.c:313-330 | the scan finds the first entry of a name on a well-formed directory, and its offset and length |
| `KfsDirent.AppendRecord` | kernel/fs/kfs.c:799-831 | appending a record's bytes appends the entry to the list the bytes denote |
| `KfsDirent.CutRecord` | kernel/fs/kfs.c:486-541 | cutting a record's bytes out removes that entry from the list |
| `KfsDirent.ShortRecord` | kernel/fs/kfs.c:830-833 | a record cut short leaves bytes that are no well-formed directory |
| `KfsDir.TrimBlocks` | kernel/fs/kfs.c:494-519 | pages behind the new end are released, and the indirect block when no page needs it |
| `KfsDir.RemoveDirent` | kernel/fs/kfs.c:486-541 | the directory file loses exactly the record's bytes, across blocks, and stays without holes or surplus blocks |
| `KfsNames.NamedOnce` | kernel/fs/kfs.c:725-852 | in a tree, every allocated inode but the root is named by exactly one proper entry |
| `KfsNames.DotDotIsParent` | kernel/fs/kfs.c:770-775 | `..` of a subdirectory is the directory that names it |
| `KfsNames.Reachable` | kernel/fs/kfs.c:614-723 | every allocated inode is reached from the root by proper names |
| `KfsNames.PathUnique` | kernel/fs/kfs.c:614-723 | and by only one path |
| `KfsNames.AddTree` | kernel/fs/kfs.c:799-831 | adding an entry for a new inode under a new name keeps the tree |
| `KfsNames.RemoveTree` | kernel/fs/kfs.c:543-723 | removing an entry whose inode names nothing keeps the tree: no allocated inode loses its name |
| `KfsNames.AddLists` | kernel/fs/kfs.c:751-831 | an addition lists the new inode under its name, gives a new directory its two dot entries, and lists nothing else |
| `KfsNames.RemoveLists` | kernel/fs/kfs.c:602-611 | a removal unlists that name and what the removed inode listed, and nothing else |
| `KfsNames.AddPaths` | kernel/fs/kfs.c:725-852 | after an addition every proper path that led somewhere leads there still, the new path leads to the new inode, every other one leads nowhere |
| `KfsNames.RemovePaths` | kernel/fs/kfs.c:543-723 | after a removal the proper paths to the removed inode lead nowhere, and every other one leads where it did |
| `KfsNames.RemoveUndoesAdd` | kernel/fs/kfs.c:543-852 | removing what was added last gives back the namespace |
| `KfsNames.RelistTree` | kernel/fs/kfs.c:402-484 | giving a directory another list of entries keeps the tree exactly when that list has the same `.` and `..` and names the same inodes with the same types, each once, under valid and distinct names |
| `KfsNames.RelistNothing` | kernel/fs/kfs.c:402-411 | the empty list does so exactly for the root that names nothing |
| `KfsNamespace.Lookup` | kernel/fs/kfs.c:273-334 | the first entry of that name; ENOMEM on an empty directory, whose buffer request is for zero bytes; read off the entries in `KfsStatus.LookupMeans` |
| `KfsNamespace.ReleaseInode` | kernel/fs/kfs.c:602-607 | the target's blocks and inode become free, nothing else changes |
| `KfsNamespace.Unlink` | kernel/fs/kfs.c:543-612 | the status that `KfsStatus.UnlinkMeans` reads off the entries; on success exactly the file and its entry are gone and the invariant holds, on failure nothing changes |
| `KfsNamespace.Rmdir` | kernel/fs/kfs.c:614-723 | the same for a directory that names only itself and its parent, with the status of `KfsStatus.RmdirMeans`; no reachable inode is orphaned |
| `KfsCreate.NewInode` | kernel/fs/kfs.c:745-797 | the lowest free inode and, for a directory, a block that lists `.` and `..`, or everything given back |
| `KfsCreate.AppendExact` | kernel/fs/kfs.c:821-833 | when the record's append is complete, when it is cut short and when it fails, from the directory's size and the free blocks |
| `KfsCreate.LinkedWhole` | kernel/fs/kfs.c:799-852 | with its whole record written the new inode joins the tree and the invariant holds |
| `KfsCreate.LinkedShort` | kernel/fs/kfs.c:830-833 | with a record cut short the invariant is broken |
| `KfsCreate.Create` | kernel/fs/kfs.c:725-852 | exact status; the invariant survives exactly when the record is not cut short, no block leaks exactly when the append does not lose one; a failure leaves namespace and files as they were |
| `KfsStatus.ListedOnce` | kernel/fs/kfs.c:313-330 | in a sound volume a name has at most one entry in a directory, for an allocated file or directory |
| `KfsStatus.EntryType` | kernel/fs/kfs.c:313-330 | every entry, `.` and `..` included, is for an allocated inode and records whether that is a directory |
| `KfsStatus.LookupMeans` | kernel/fs/kfs.c:273-334 | OK exactly when the directory lists the name, with the inode listed and whether that is a directory; ENOENT and ENOMEM exactly otherwise, by the directory's size |
| `KfsStatus.UnlinkMeans` | kernel/fs/kfs.c:543-600 | OK exactly when the name is listed for a regular file, EISDIR exactly for a directory, ENOENT exactly when it is not listed; EINVAL, ENOENT and ENOTDIR before that |
| `KfsStatus.RmdirMeans` | kernel/fs/kfs.c:614-690 | OK exactly when the name is listed for a directory that names nothing but `.` and `..`; ENOTEMPTY, ENOTDIR and ENOENT exactly otherwise |
| `KfsStatus.CreateMeans` | kernel/fs/kfs.c:725-850 | every answer from name, entries, free inodes and blocks and the directory's size: a record that starts a block needs one block, from the eleventh on two if there is no indirect block |
| `KfsStatus.ShortMeans` | kernel/fs/kfs.c:821-833 | a record is cut short exactly when it does not fit in what is left of the last block and the next one cannot be had, in bytes and free blocks |
| `KfsStatus.LosesMeans` | kernel/fs/kfs.c:178-193 | create loses a block exactly when its record needs an indirect and a data block and one is left |
| `KfsStatus.ContentOnDisk` | kernel/fs/kfs.c:206-224 | byte p of a file is byte p % 512 of the block its direct pointer or its indirect word gives, zero in a hole |
| `KfsStatus.NoBlockMeans` | kernel/fs/kfs.c:162-202 | a write finds no block exactly behind the largest file, or where nothing is mapped and too few blocks are free |
| `KfsRun.ReadAfterWrite` | kernel/fs/kfs.c:413-484 | reading back the range just written gives the bytes written |
| `KfsRun.WriteFile` | kernel/fs/kfs.c:413-484 | a write to an inode of any type: what is stored, exactly when a block is lost, and the invariant holds exactly unless BreaksWrite holds: the inode is a directory and its new bytes do not list the same |
| `KfsRun.TruncateFile` | kernel/fs/kfs.c:402-411 | truncating an inode of any type: it becomes empty, nothing leaks, and the invariant holds exactly unless the inode is a directory other than the empty root |
| `KfsRun.TruncateKeepsIff` | kernel/fs/kfs.c:402-411 | emptying an allocated inode keeps the invariant exactly when it is a regular file, or the root and the root names nothing |
| `KfsRun.WriteKeepsIff` | kernel/fs/kfs.c:413-484 | storing bytes in a directory keeps the invariant exactly when they leave no hole and the new bytes are a directory that lists the same |
| `KfsRun.ReadFile` | kernel/fs/kfs.c:227-271 | on an inode of any type: the slice of the content exactly when no byte of it lies in a hole, otherwise ENOENT and the bytes before the hole; EINVAL and ENOENT for inodes that are not there |
| `KfsRun.Call` | kernel/fs/kfs.c:379-852 | each call does exactly what its relation Did says, keeps the invariant exactly unless Breaks holds of it, and leaks exactly when Loses holds before it |
| `KfsRun.Remount` | kernel/fs/kfs.c:866-887 | mounting again between calls loads the same allocator state and volume |
| `KfsRun.Run` | kernel/fs/kfs.c:379-852 | any run of write, truncate, create, unlink and rmdir on any inode, up to and with the first call that breaks the invariant, follows the calls one by one and keeps ownership of blocks; the whole invariant holds exactly unless the last call broke it; the marked data blocks are exactly the reached ones exactly as long as no call lost its indirect block |
| `KfsRun.Lifecycle` | scripts/kfsck.py:49-146 | format (exactly when everything fits), mount, any run, then kfsck: its verdict is Passes, and unless a call broke the invariant it says whether the volume is clean, which it is when no call lost a block, was cut short or left a hole; with repeated names the image is no tree and nothing is run |
| `KfsRoundTrip.FormatAndRead` | scripts/mkfs_kfs.py:112-178 | format, mount, look up and read: the bytes of the host file, for files of different names that fit |
| `KfsRoundTrip.WriteAndRead` | kernel/fs/kfs.c:227-484 | a write to a regular file, whole or short, then a read from the same position: the bytes written, and no byte elsewhere changes |
| `KfsRoundTrip.CreateAndRemove` | kernel/fs/kfs.c:273-852 | create, look up, remove: it is found as what it was made, and the namespace is what it was before |
| `KfsExamples.CutShortRun` | kernel/fs/kfs.c:821-833 | on a volume with one data block and a root of 508 bytes, creating a file breaks the invariant |
| `KfsExamples.LostBlockRun` | kernel/fs/kfs.c:178-193 | writing the eleventh block of a file with one free block left makes kfsck fail |
| `KfsExamples.HoleRun` | kernel/fs/kfs.c:206-224 | writing one byte at position 512 of an empty file makes kfsck fail |
| `KfsExamples.EmptiedRun` | kernel/fs/kfs.c:402-411 | truncating a root that names a file breaks the invariant |
| `KfsExamples.ScribbledRun` | kernel/fs/kfs.c:413-484 | writing one byte behind the only entry of the root breaks the invariant |
| `Mkfs.Image.constructor` | scripts/mkfs_kfs.py:29-45 | a zeroed image with its superblock, exactly the metadata blocks marked, no inode |
| `Mkfs.Image.AllocateBlock` | scripts/mkfs_kfs.py:81-90 | the lowest free data block, marked; fails exactly when there is none |
| `Mkfs.Image.WriteInode` | scripts/mkfs_kfs.py:72-79 | the inode is stored and marked, nothing else changes |
| `Mkfs.StoreChunks` | scripts/mkfs_kfs.py:126-132 | the chunks go to fresh blocks in order; fails exactly when there are too few |
| `Mkfs.StoreFile` | scripts/mkfs_kfs.py:126-145 | succeeds exactly when one indirect block and the free blocks suffice; the inode owns exactly the blocks taken for it and its content is the file's bytes, without holes |
| `Mkfs.Build` | scripts/mkfs_kfs.py:112-178 | succeeds exactly when inodes, blocks and indirect tables suffice; then the image holds exactly the given files, is sound, leaks nothing and has exactly the remaining blocks free, and its namespace satisfies the invariant exactly when no two files share a name |
| `Mkfs.FitsMeans` | scripts/mkfs_kfs.py:112-178 | what fits, in numbers of files, bytes and blocks |
| `Kfsck.MarkAll` | scripts/kfsck.py:53-67 | no new error exactly when every reference is in the data area, marked in the bitmap and new |
| `Kfsck.CheckRefs` | scripts/kfsck.py:81-96 | the pointer part of the inode pass accepts exactly the acceptable references |
| `Kfsck.ScanDir` | scripts/kfsck.py:113-125 | the directory walk accepts exactly the directories it should, which `Kfsck.ScanMeans` reads as runs of records |
| `Kfsck.Check` | scripts/kfsck.py:49-146 | on any volume the script passes exactly the undamaged ones: types and sizes possible, every needed pointer in the data area and marked, no two equal, directories runs of records, metadata marked, every marked data block pointed to |
| `Kfsck.PassesMeans` | scripts/kfsck.py:49-146 | the same of the predicate Passes, over pointer slots, marks and bytes and without the invariant |
| `Kfsck.GoodMeans` | scripts/kfsck.py:69-96 | marking the references in turn meets no error exactly when every slot that a size needs is all right and no two are equal |
| `Kfsck.ScanMeans` | scripts/kfsck.py:113-125 | the walk meets no error exactly when some list of offsets leads through records from the start to the end |
| `Kfsck.PassesIffClean` | scripts/kfsck.py:49-146 | on a volume with the file system invariant kfsck passes exactly when nothing leaked, no file has holes and no inode keeps an unneeded indirect block |
| `Pmm.Allocator.constructor` | kernel/memory/pmm.c:25-54 | everything is reserved and the counter is exact, whatever the byte behind the bitmap holds; the bitmap has a bit for each frame and starts at the next page |
| `Pmm.Allocator.MarkRegion` | kernel/memory/pmm.c:65-99 | exactly the pages that the region reaches into below the end of memory become free or reserved, the page that memory ends in included, and the counter moves by the number of bits that changed |
| `Pmm.BitsMean` | kernel/memory/pmm.c:77-82 | a frame is in use exactly when its binary digit is set, eight to a byte, lowest first |
| `Pmm.RegionMeans` | kernel/memory/pmm.c:65-77 | the loop visits exactly the pages that start before the region and memory end, and end after the region starts |
| `Pmm.MarkAccounting` | kernel/memory/pmm.c:65-99 | after any marking the counter differs from the number of frames in use by exactly the change of the bit behind the last whole frame |
| `Pmm.RegionInside` | kernel/memory/pmm.c:25-30 | a region visits that page exactly when memory ends inside it and the region covers it |
| `Pmm.TailMeans` | kernel/memory/pmm.c:65-77 | the same in addresses |
| `Pmm.StrayByte` | kernel/memory/pmm.c:29-33 | and then touches the byte behind the bitmap exactly when the number of whole frames is a multiple of eight |
| `Pmm.UnalignedMemoryMiscounts` | kernel/memory/pmm.c:25-30 | booting on three pages and a byte leaves the counter one below the number of frames in use |
| `Pmm.StrayByteCleared` | kernel/memory/pmm.c:77-90 | booting on eight pages and a byte clears a bit of the byte behind the bitmap |
| `Pmm.Allocator.ReserveBoot` | kernel/memory/pmm.c:56-63 | everything up to the end of the bitmap, frame 0 included, is reserved |
| `Pmm.Allocator.AllocPage` | kernel/memory/pmm.c:101-120 | the lowest free frame; 0 exactly when none is free, and then nothing changes |
| `Pmm.Allocator.FreePage` | kernel/memory/pmm.c:122-150 | exactly that frame becomes free; the counter stays exact exactly when it is a whole frame, and boot's frames stay reserved |
| `Pmm.Boot` | kernel/init/multiboot.c:110-158 | after pmm_init, the usable regions, the boot regions and the loader's own regions, on memory of any size: the counter is off by exactly the change of the tail page's bit, which the last call that covers the page decides; boot's and the loader's frames are reserved; a frame is free exactly when some usable region reaches into it, it starts behind the bitmap, and no reserved region reaches into it |
| `Pmm.Run` | kernel/memory/pmm.c:101-150 | any run of allocations and frees follows the calls, each taking the lowest free frame; the counter stays exact, or as far off as boot left it, held frames are distinct, and the frames in use are those at the start and the held ones |
| `Vmm.EntryWord` | kernel/memory/vmm.c:35-42 | an entry word keeps the frame address and each flag apart, so its fields can be read as a record |
| `Vmm.PathOfPage` | kernel/memory/vmm.c:24-27 | two lower-half addresses have the same four indices exactly when they lie on the same page |
| `Vmm.CanonicalMeans` | kernel/memory/vmm.c:29-33 | canonical are the lower and the upper 2^47 bytes and nothing between |
| `Vmm.MissingMeans` | kernel/memory/vmm.c:112-119 | how many tables a mapping has to make, from the entries on its way |
| `Paging.Widen` | kernel/memory/vmm.c:72-81 | adding rights to an intermediate entry changes no translation, no table and takes no right away |
| `Paging.Attach` | kernel/memory/vmm.c:85-102 | hanging a zeroed table into an absent entry changes no translation and adds exactly that table to the tree |
| `Paging.LeafSet` | kernel/memory/vmm.c:122-126 | writing a leaf entry changes the translation of that page only and keeps the tree of tables |
| `Paging.SpaceFrame` | kernel/memory/vmm.c:62-190 | an address space whose own tables are untouched keeps its tree, its permissions and its translations |
| `Vmm.Vmm.GetNextLevel` | kernel/memory/vmm.c:62-103 | the four outcomes: large page, present (with the rights asked for), absent and not to be made, absent and made from a free frame |
| `Vmm.Vmm.MapPage` | kernel/memory/vmm.c:105-128 | fails exactly for a bad or misaligned address, a page already mapped, or fewer free frames than missing tables; success adds exactly one page's translation, failure changes none, and no frame outside the tables changes hands |
| `Vmm.Vmm.UnmapPage` | kernel/memory/vmm.c:130-151 | fails exactly for a bad address or an unmapped page; success removes exactly one translation |
| `Vmm.WalkOfSpace` | kernel/memory/vmm.c:153-323 | in an address space the processor's walk hits exactly the mapped pages, at the mapped frame plus the offset, with exactly the rights the page was mapped with, no-execute included |
| `Vmm.WalkMeans` | kernel/memory/vmm.c:157-189 | the walk level by level: indices, faults, 1 GiB, 2 MiB and 4 KiB pages, and rights granted by every entry on the way |
| `Vmm.Vmm.GetPhys` | kernel/memory/vmm.c:153-190 | on any tables, 2 MiB and 1 GiB pages included: the address that the processor's walk reaches, and nothing exactly where it faults or meets a 1 GiB page; nothing between the canonical halves |
| `Vmm.OtherSpace` | kernel/memory/vmm.c:62-151 | no operation on one address space changes the tables or a translation of another, and the two stay apart |
| `Vmm.Vmm.CreateAddressSpace` | kernel/memory/vmm.c:192-211 | a new PML4 with an empty lower half and the kernel's upper half; 0 exactly when no frame is free |
| `Vmm.Vmm.FreePageTable` | kernel/memory/vmm.c:213-228 | gives back the table and every table below it, each once, and nothing else |
| `Vmm.Vmm.DestroyAddressSpace` | kernel/memory/vmm.c:230-245 | exactly the tables of the lower half and the PML4 become free |
| `Vmm.Vmm.IsUserAccessible` | kernel/memory/vmm.c:247-323 | on any tables: true exactly where the processor's walk grants USER (and WRITABLE) all the way |
| `Vmm.Vmm.UserRangeAccessible` | kernel/memory/vmm.c:273-344 | true exactly for the empty range and for ranges below 2^47 that do not wrap and whose every byte lies on such a page |
| `Vmm.Run` | kernel/memory/vmm.c:105-151 | any run of maps and unmaps follows the calls, with their exact results, and refines a flat map from pages to entries |
| `Vmm.Lifecycle` | kernel/memory/vmm.c:192-245 | create, any maps and unmaps, destroy: the frames in use are exactly those before, with their contents, so no data frame and no kernel table is given back |
| `Heap.AlignedEnough` | kernel/memory/heap.c:31-33 | the rounded size covers the request exactly for sizes up to 2^64 - 16; above that it is 0 |
| `Heap.Kinds` | kernel/memory/heap.c:43-75 | growth covers header and rounded request exactly up to 2^64 - 4144 and above 2^64 - 16; it is nothing exactly between 2^64 - 4144 and 2^64 - 48, and one page that is too small between there and 2^64 - 16 |
| `Heap.ReservedTest` | kernel/memory/heap.c:45-47 | the test of the reserved end is right exactly when the sum does not wrap, or wraps to more than the reserved end |
| `Heap.StaysReserved` | kernel/memory/heap.c:43-66 | kmalloc grows the heap past its reserved end exactly when no block fits, the sum wraps to at most that end, and there are pages enough |
| `Heap.PastTheReserve` | kernel/memory/layout.h:5-7 | on the heap Kryos starts with, a request of 2^46 - 48 bytes does so |
| `Heap.HugeRequest` | kernel/memory/heap.c:77-129 | on any heap without blocks, a request of 2^64 - 4096 bytes never returns |
| `HeapList.TakeGood` | kernel/memory/heap.c:83-101 | taking a block, split or whole, keeps the tiling, the alignment and no two free neighbours |
| `HeapList.TakeMeans` | kernel/memory/heap.c:83-98 | a block with at least 64 bytes to spare is split behind the request and a new header, any other is taken whole |
| `HeapList.GrowGood` | kernel/memory/heap.c:112-124 | growth, whole or partial, keeps them too |
| `HeapList.ReleaseGood` | kernel/memory/heap.c:147-162 | freeing with coalescing on both sides keeps them too |
| `HeapList.ReleaseMeans` | kernel/memory/heap.c:147-161 | the freed block and its free neighbours become one free block, headers included, and nothing else changes |
| `HeapList.ReleaseTake` | kernel/memory/heap.c:132-164 | releasing the block just taken restores the exact list |
| `HeapList.Accounting` | kernel/memory/heap.c:208-229 | allocated + free + 48 * blocks equals the committed bytes |
| `HeapList.TakeSums` | kernel/memory/heap.c:208-229 | what taking a block adds to the allocated bytes and takes from the free bytes and blocks |
| `HeapList.ReleaseSums` | kernel/memory/heap.c:208-229 | what releasing one does: its bytes and the headers it removes become free |
| `HeapList.GrowSums` | kernel/memory/heap.c:208-229 | growth adds free bytes only, less the header of a new block |
| `Heap.HeadersClear` | kernel/memory/heap.c:83-162 | headers of a tiled list never lie in the payload of a block in use |
| `Heap.Heap.Expand` | kernel/memory/heap.c:43-67 | exactly the pages that can be had are added, where the wrapped test lets any through; success exactly when all of them can |
| `Heap.Heap.KMalloc` | kernel/memory/heap.c:69-130 | for every size: first fit on the list after any growth, null, or no return, each exactly when stated; the caller gets its bytes exactly for sizes up to 2^64 - 16; at most two passes exactly unless the request drains two pages or more; no header write touches a live payload |
| `Heap.OrdinaryMalloc` | kernel/memory/heap.c:69-130 | for a request that wraps nowhere: the first free block that is large enough; failing that, growth by whole pages exactly when both ends and the frames allow it; failing that null, and how far the heap grew |
| `Heap.MallocSums` | kernel/memory/heap.c:69-229 | one kmalloc adds the rounded request, or a block less than 64 bytes larger, to the allocated bytes, and takes that and a split's header from the free ones |
| `Heap.Heap.KFree` | kernel/memory/heap.c:132-164 | the list becomes the released list, links and tiling hold, no header write touches a live payload |
| `Heap.Heap.Verify` | kernel/memory/heap.c:166-206 | on any list of headers: no fault exactly when it is empty, or the blocks tile the committed range, no two neighbours are free and `prev` undoes `next`; the lists these operations build pass |
| `Heap.VerifiedIff` | kernel/memory/heap.c:172-205 | the assertions of all turns and the final sum amount to that |
| `Heap.Heap.GetStats` | kernel/memory/heap.c:208-229 | the statistics are the sums over the list and account for every committed byte |
| `Heap.MallocFree` | kernel/memory/heap.c:69-164 | kfree right after kmalloc restores the list that held after any growth |
| `Heap.Run` | kernel/memory/heap.c:69-164 | any run with sizes of any kind, up to the first call that does not return or hands out too little, follows the calls; held regions are disjoint and a block is in use exactly while it is held, exactly unless the last call handed out too little; sizes up to 2^64 - 4144 never do either, and the heap stays below its reserved end when no sum wraps |
| `Ring.CutCycle` | kernel/thread/thread.c:182-187 | unlinking one thread leaves a ring of the others |
| `Ring.ReapedIsLiving` | kernel/thread/thread.c:166-212 | the reaper removes every dead thread that is not running exactly when the head is not dead or is the only dead one |
| `Ring.ReapedStays` | kernel/thread/thread.c:166-212 | who stays, thread by thread |
| `Ring.DeadHeadHidesOthers` | kernel/thread/thread.c:184-187 | a ring in which a dead thread survives because the head is dead too |
| `Ring.ChoiceDist` | kernel/thread/thread.c:242-257 | round-robin choice stops at a ready thread or moves closer to it |
| `Sched.Scheduler.Create` | kernel/thread/thread.c:103-110 | the new thread joins at the tail, ready; the ring stays one ring |
| `Sched.Scheduler.Reap` | kernel/thread/thread.c:166-212 | exactly the threads that Reaped names stay, the rest is freed, and no thread moves away from the running one |
| `Sched.Scheduler.Schedule` | kernel/thread/thread.c:232-276 | thread by thread: a running thread makes it never halt, and is running if it is still current and ready otherwise; the next thread is the first ready one after it and now runs; every other thread left keeps its state; it halts exactly when nobody is ready or running |
| `Sched.ScheduleMeans` | kernel/thread/thread.c:166-276 | the same of every call of schedule in a run |
| `Sched.Scheduler.Leave` | kernel/thread/thread.c:294-304 | the same when the running thread dies or blocks first |
| `Sched.Scheduler.Wake` | kernel/thread/thread.c:214-221 | only a thread waiting for a child becomes ready |
| `Sched.Scheduler.Terminate` | kernel/thread/thread.c:319-329 | exactly the threads of the process die |
| `Sched.BoundedWaiting` | kernel/thread/thread.c:232-276 | a thread that stays ready, or that yields and then stays ready, runs within n + k calls of schedule, for n threads in the ring and k creations meanwhile, and the scheduler does not halt before |
| `Sched.Run` | kernel/thread/thread.c:25-329 | any run follows the events and keeps one ring through the current thread, with nothing else running |
| `Processes.BornFamily` | kernel/process/process.c:96-99 | a new process at the front of its parent's list keeps all child lists consistent |
| `Processes.MovedFamily` | kernel/process/process.c:134-140 | moving the first child to the kernel's process keeps them consistent |
| `Processes.UnlinkedFamily` | kernel/process/process.c:115-124 | unlinking a childless process keeps them consistent |
| `Wait.Kernel.Spawn` | kernel/process/process.c:56-110 | a new pid, a new child of the caller's process, every invariant kept |
| `Wait.Kernel.Reparent` | kernel/process/process.c:130-142 | only links change; the list of the process ends up empty, and its children stand before the kernel's own in reverse order |
| `Wait.ExitAttends` | kernel/process/process.c:144-161 | an exit loses no waiter of a process other than the kernel's: it wakes the one thread that could be waiting for it |
| `Wait.Kernel.Exit` | kernel/process/process.c:144-161 | zombie with the given status, children to the kernel's process, the parent's waiter ready, own threads dead, every invariant kept |
| `Wait.ExitMeans` | kernel/process/process.c:144-161 | the same record by record and thread by thread, from the state before |
| `Wait.Kernel.Scan` | kernel/syscall/syscall.c:203-217 | the first matching zombie in list order, and whether any child matches |
| `Wait.Kernel.Destroy` | kernel/process/process.c:112-128 | exactly that process is unlinked and gone |
| `Wait.Kernel.WaitPid` | kernel/syscall/syscall.c:195-235 | the exact outcomes, whoever else waits; it reaps the first matching zombie of the caller's children, answers with its own pid and the status it exited with, and that pid was not reaped before; it blocks only when a child matches and none has exited |
| `Wait.WaitMeans` | kernel/syscall/syscall.c:195-235 | which answer it gives, from the parents, pids and zombies alone: ECHILD exactly without a matching child, a status exactly when a matching child is a zombie, and it blocks exactly otherwise |
| `Wait.BlockKeepsIff` | kernel/thread/thread.c:223-230 | blocking keeps every waiter of a process attended to exactly when it is another process or no other thread of it waits |
| `Wait.OrphansIff` | kernel/process/process.c:150-157 | a waiting thread of the kernel's own process stays attended to exactly when the process that exits is its child or leaves no zombie it waits for |
| `Wait.AttentiveUntil` | kernel/process/process.c:144-161 | all along a run, the waiters of a process, the kernel's own included, are attended to exactly until an event forgets one |
| `WaitExamples.SecondWaits` | kernel/thread/thread.c:223-230 | a state that keeps every invariant, in which a second thread of a process starts to wait and the first is forgotten |
| `WaitExamples.OrphanArrives` | kernel/process/process.c:150-157 | a state that keeps every invariant, in which an exit leaves a waiting kernel thread with a zombie child it is not told of |
| `Wait.Run` | kernel/process/process.c:56-161 | any run from boot follows the events; each process loses no wakeup exactly until an event forgets one of its waiters, every exited process is a zombie or was reaped, and none is reaped twice or with another status |
| `Vfs.SplitCat` | kernel/fs/vfs.c:57-65 | the components of two strings joined at a slash are the components of each |
| `Vfs.SplitSlashes` | kernel/fs/vfs.c:57-65 | slashes alone have no component |
| `Vfs.SplitName` | kernel/fs/vfs.c:57-65 | a name without a slash is its own only component; with the two laws above this fixes what components are |
| `Vfs.StripFrontIs` | kernel/fs/vfs.c:29-29 | only leading slashes are taken off a path, and all of them |
| `Vfs.ResolvePath` | kernel/fs/vfs.c:19-88 | the byte loop computes the walk over the components, whose answers `Vfs.ResolvesTo` and `Vfs.ResolveFails` give |
| `Vfs.ResolvesTo` | kernel/fs/vfs.c:54-87 | a path that names no device resolves to w exactly when a chain of vnodes leads from the root through all components to w, each at most 255 long and, but for ".", looked up in a vnode that can be entered; and w is a directory if the path ends in a slash |
| `Vfs.ResolveFails` | kernel/fs/vfs.c:54-87 | it fails exactly with the error of the component at which the chain stops, too long, ENOTDIR or that of the lookup, or with ENOTDIR for the trailing slash |
| `Vfs.DeviceNames` | kernel/fs/vfs.c:35-52 | the five device names |
| `Vfs.ResolveParent` | kernel/fs/vfs.c:90-144 | the byte loop for the directory and last name, whose answers `Vfs.ParentMeans` gives |
| `Vfs.ParentMeans` | kernel/fs/vfs.c:90-144 | the answer by the number and length of components, and that the directory part has all components but the last |
| `Vfs.Agreement` | kernel/fs/vfs.c:19-144 | outside the device names, where resolve_parent gives (d, name), resolve_path gives the lookup of name in d plus the trailing-slash test |
| `Vfs.Meaning` | kernel/fs/vfs.c:19-88 | a path means the device its raw string names, or else the walk over its components without ".", with the trailing-slash check |
| `Vfs.SlashesAndDots` | kernel/fs/vfs.c:22-88 | paths that differ only in slashes and "." components resolve alike exactly when neither or both name a device and the trailing-slash check makes no difference, or one does and the walk leads to that vnode |
| `Vfs.DeviceSlash` | kernel/fs/vfs.c:35-52 | "dev/tty0" resolves to the terminal, "dev//tty0" to what a walk over its two names finds |
| `Vfs.DeviceSlashDiffers` | kernel/fs/vfs.c:35-52 | on a file system of empty directories the first is the terminal and the second ENOENT |
| `Vfs.ExtraSlashOrDot` | kernel/fs/vfs.c:65-69 | doubling an interior slash or inserting "/." is such a difference |
| `Elf.HeaderBounds` | kernel/process/elf.c:13-24 | an accepted header has its table inside the file, and all entries exactly when the last one is inside |
| `Elf.HeaderMeans` | kernel/process/elf.c:13-24 | the five answers in bytes of the file and without wrapping |
| `Elf.PhdrMeans` | include/elf.h:44-53 | the fields of a program header in bytes of the file |
| `Elf.CheckedSound` | kernel/process/elf.c:49-58 | the wrapping checks accept exactly the segments that lie inside the file and the user half and are not both writable and executable |
| `Elf.CheckMeans` | kernel/process/elf.c:50-58 | which error, as checks without wrapping would give it |
| `Elf.LoadSegment` | kernel/process/elf.c:66-102 | the page loop lays the segment's file bytes over what was loaded, zero elsewhere; it succeeds exactly when there are frames for its new pages |
| `Elf.SegmentBytes` | kernel/process/elf.c:73-102 | for disjoint segments every byte is the file's below filesz and zero from there to memsz |
| `Elf.LastSegmentWins` | kernel/process/elf.c:73-102 | where segments overlap, a byte is that of the last one that has a file byte there |
| `Elf.TouchesMeans` | kernel/process/elf.c:66-73 | a segment needs exactly the pages it reaches into |
| `Elf.AllPagesMean` | kernel/process/elf.c:66-82 | the pages counted are those that some segment needs |
| `Elf.LoadSegments` | kernel/process/elf.c:44-105 | success means all segments are laid out and the entry point is in an executable one; a format error is that of the first bad segment, a mapping error means too few frames |
| `Elf.LoadImage` | kernel/process/elf.c:38-169 | succeeds exactly when header and segments are good, the entry point is in an executable segment and there are frames for all segment pages and a stack apart from them; then every segment byte that the arguments did not reach is in place, the stack reads as argc, argv and envp exactly when there is memory for them, as there is when they fit, each page has the permissions of the first segment that touches it, and no page is writable and executable |
| `Elf.LoadableMeans` | kernel/process/elf.c:38-117 | what a load asks for besides a good header, in addresses, bytes and frames |
| `UserMemory.UnLELE` | kernel/process/elf.c:26-36 | an eight-byte little-endian word reads back |
| `ElfStack.BuildStack` | kernel/process/elf.c:119-168 | for arguments of any number and length, what _start reads at rsp is argc, argv and envp, at most 32 of each, exactly when there is memory for the strings and the words; nothing below rsp changes |
| `ElfStack.TruncatedMeans` | kernel/process/elf.c:125-126 | the first 32 of each are kept |
| `ElfStack.StackPointerMeans` | kernel/process/elf.c:142-164 | the stack pointer is a multiple of 16 exactly for an odd number of arguments and environment strings, and lies as close below the strings as alignment allows |
| `ElfStack.FitsBacked` | kernel/process/elf.c:9-11 | arguments that fit the sixteen pages have that memory |
| `ElfStack.LongArgument` | kernel/process/elf.c:119-140 | one argument of 65536 bytes does not |
| `ElfStack.StartedUnique` | user/libkryos/startup.S:18-29 | what _start reads determines argc, argv and envp |
| `UserAlloc.TotalEnough` | user/libkryos/alloc.c:28-30 | the block asked for holds header and request exactly for sizes up to 2^64 - 40 |
| `UserAlloc.TotalMeans` | user/libkryos/alloc.c:28-30 | it is the request and 24 bytes rounded up to a multiple of 16 |
| `UserAlloc.PagesCover` | kernel/syscall/syscall.c:506-522 | sys_brk maps every page that begins between the old and the new break exactly unless the new one is the first to lie in the last page of the address space |
| `UserAlloc.GrantsMeans` | kernel/syscall/syscall.c:506-522 | where nothing wraps, the break moves up exactly when a page can be had for each page boundary it passes |
| `UserAlloc.Heap.SysBrk` | kernel/syscall/syscall.c:499-537 | the break moves exactly when it does not go below its start and, upwards, the pages can be had |
| `UserAlloc.Heap.Sbrk` | user/libkryos/alloc.c:11-23 | the old break and a break moved by the increment modulo 2^64, or -1 and nothing |
| `UserAlloc.SweepGood` | user/libkryos/alloc.c:80-90 | the sweep keeps the blocks contiguous and leaves no two free neighbours |
| `UserAlloc.SweepLive` | user/libkryos/alloc.c:80-90 | the sweep touches no block in use |
| `UserAlloc.TakeMeans` | user/libkryos/alloc.c:36-50 | a block with at least 40 bytes to spare is split, any other is taken whole |
| `UserAlloc.FreeMeans` | user/libkryos/alloc.c:74-91 | on a list without free neighbours the sweep joins the freed block with its free neighbours and changes nothing else |
| `UserAlloc.FreeTake` | user/libkryos/alloc.c:36-90 | free right after a malloc that found room restores the list |
| `UserAlloc.Heap.Malloc` | user/libkryos/alloc.c:25-72 | for every size: the first block with room is taken; failing that one block at the break is added, whose new value wraps modulo 2^64; failing that nothing changes; the caller gets its bytes and the list stays valid exactly when the size is at most 2^64 - 40 and a growth stays below 2^64 |
| `UserAlloc.Heap.Free` | user/libkryos/alloc.c:74-91 | the block becomes free and the list is swept; the sweep ends because the list from its position on gets shorter |
| `UserAlloc.Run` | user/libkryos/alloc.c:11-91 | any run in which only malloc moves the break, up to the first malloc that answers although it is unsafe, follows the calls; exactly unless there was one, blocks reach from the first to the break, no two free ones are neighbours and a block is in use exactly while it is held, so that held regions are disjoint; there is none when start and sizes together stay below 2^64 |
| `UserAlloc.BreakMovesDown` | user/libkryos/alloc.c:11-72 | malloc of 1000, 2^64 - 40 and 100 bytes: the third header lies in the first region and the third region in the second |

## Left out

- Device failures and crash consistency: sector reads and writes never fail, and nothing is said about stopping in the middle of a call.
- Kernel allocation failures inside KFS: kmalloc is taken to succeed there, except that a request for zero bytes returns null, which is why looking up a name in an empty directory answers ENOMEM.
- kfs_vnode_getdents, the superblock read and the file descriptor layer: they would add only simple members.
- KfsDevice.Kfs.constructor: superblocks whose regions overlap or are too small for what they describe, which kfs_mount accepts, are not covered; the same holds for `Kfsck.Check`.
- KfsFile.Write: the file position is below 2^41, so that a block number fits the 32-bit variable that holds it; `KfsFile.Read` has the same bound and reads inodes of at most the largest size. No call of the kernel sets a position: it starts at 0 and follows reads and writes, so that neither bound is ever reached.
- KfsDirent.FindEntry: directories are well formed, as they are as long as the invariant holds.
- KfsRun.Run: it ends with the first call that breaks the invariant, and every call works on a freshly resolved inode, so stale handles to reused inodes do not occur.
- Kfsck.Check: only whether errors were counted is stated, not how many; a directory is walked once its blocks are accepted; the script also walks the others, for which its verdict is already a failure.
- Mkfs.Build: file names are valid entry names, as the base names of host files are.
- Vmm.Vmm.MapPage: addresses of the kernel half are not covered, since every address space shares those tables, and `Vmm.Vmm.UnmapPage` has the same bound; physical addresses are below 2^52, the width of an entry's frame field.
- TLB invalidation, CR3 loads and context_switch itself: a switch is the change of the current thread.
- Heap.Heap.KMalloc: the frames that can be had for growth are a parameter, and no growth passes the first page above the heap that is already mapped, where the kernel image begins.
- Interrupt masking: each call is one step, as the source masks interrupts around it.
- Sched.Scheduler.Schedule: the flag against re-entry and the branch for a current thread found ready while searching are not there, since that thread was made ready before the search and ends it.
- Wait.Run: failed process creation and the copying of the status to user memory are not modelled.
- Vfs.Agreement: device names under /dev are excluded, because they are matched on the raw string before any lookup.
- Elf.LoadImage: files whose last program header reaches past their end, which the source reads all the same, are not covered; the strings are shorter than the user half of the address space. The number of frames that can still be allocated and mapped is a parameter, frames for page tables are not counted, and pages are those of `UserMemory.Space`, not of the page tables of `Vmm`.
- UserAlloc.Heap.Malloc: how many pages the kernel can map is a parameter; what it unmaps above a lower break, and pages left over by a failed growth, are not modelled. Once a break has moved down, the list is described only as far as malloc adds to it.
- Drivers, terminals, the tar file system, system call argument copying, spawn and exec, the shell and the boot code besides the memory map.
