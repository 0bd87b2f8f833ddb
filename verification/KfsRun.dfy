/** Whole runs: any sequence of file system calls keeps the invariant. */
module KfsRun {
  import opened Bits
  import opened KfsFormat
  import opened KfsDevice
  import opened KfsPages
  import opened KfsFile
  import opened KfsContent
  import opened KfsVolume
  import opened KfsDirent
  import opened KfsDir
  import opened KfsNames
  import opened KfsNamespace
  import opened KfsCreate
  import opened Kfsck
  import Mkfs

  // ------------------------------------------------ writes and truncation

  /** Storing bytes in a regular file keeps the invariant and the namespace. */
  lemma WriteKeepsInv(sb: Superblock, v: Vol, ino: nat, off: nat, bytes: seq<U8>, v': Vol)
    requires FsInv(sb, v) && ino in v.inoUsed && WellSized(sb, v') && FileStep(sb, v, ino, v')
    requires v.inodes[ino].typ == TYPE_FILE && bytes != [] && off + |bytes| <= MAX_SIZE
    requires FileAt(v', ino) == Put(FileAt(v, ino), off, bytes)
    ensures FsInv(sb, v') && NamesOf(v') == NamesOf(v) && Keeps(v, v', v.inoUsed - {ino})
    ensures NoLeak(sb, v) <==> NoLeak(sb, v')
    ensures Content(FileAt(v', ino)) == Overwrite(Content(FileAt(v, ino)), off, bytes)
  {
    hide Sound, Tree, FileAt, NoLeak, Put, Step, NamesOf, DirFile, Overwrite, Content;
    FileStepKeeps(sb, v, ino, v');
    assert NodeOk(v, ino);
    PutFine(FileAt(v, ino), off, bytes);
    OneFileChanged(v, v', ino);
  }

  lemma PutFine(f: FileState, off: nat, bytes: seq<U8>)
    requires Fine(f) && bytes != [] && off + |bytes| <= MAX_SIZE
    ensures Fine(Put(f, off, bytes)) && Content(Put(f, off, bytes)) == Overwrite(Content(f), off, bytes)
  {
    hide Patch, ByteOf, Bytes, Overwrite;
    PutContent(f, off, bytes);
    var f' := Put(f, off, bytes);
    forall lb | lb in f'.mapped ensures lb in Below(BlocksFor(f'.size)) {
      assert lb in Touched(off, |bytes|) ==> Touches(off, |bytes|, lb);
      assert lb in f.mapped ==> lb in Below(BlocksFor(f.size));
    }
  }

  /** The failed write that loses its indirect block keeps invariant and files. */
  lemma LeakedKeepsInv(sb: Superblock, v: Vol, v': Vol)
    requires FsInv(sb, v) && Leaked(sb, v, v') && WellSized(sb, v')
    ensures FsInv(sb, v') && NamesOf(v') == NamesOf(v) && Keeps(v, v', v.inoUsed) && !NoLeak(sb, v')
  {
    hide Tree, FileAt, NoLeak, NamesOf, NodesOk;
    LeakedSound(sb, v, v');
    SameNames(v, v');
  }

  /** Work on one directory keeps the invariant exactly when its new bytes are a
      directory that lists what the old ones listed. */
  lemma DirChanged(sb: Superblock, v: Vol, d: nat, v': Vol)
    requires FsInv(sb, v) && IsDirAt(v, d) && WellSized(sb, v') && FileStep(sb, v, d, v')
    ensures Sound(sb, v') && Keeps(v, v', v.inoUsed - {d}) && v'.inoUsed == v.inoUsed
    ensures d < |v'.inodes| && NamesOf(v') == Relisted(NamesOf(v), d, EntriesOf(FileAt(v', d)))
    ensures NoLeak(sb, v) <==> NoLeak(sb, v')
    ensures FsInv(sb, v') <==>
              DirFile(FileAt(v', d)) && Relists(d, EntriesOf(FileAt(v, d)), EntriesOf(FileAt(v', d)))
  {
    hide Sound, Tree, FileAt, NoLeak, Step, NamesOf, DirFile, EntriesOf, Relists, Keeps;
    FileStepKeeps(sb, v, d, v');
    OneDirChanged(v, v', d);
    DirEntries(v, d);
    NamesUsed(v);
    RelistTree(NamesOf(v), d, EntriesOf(FileAt(v', d)));
    if FsInv(sb, v') { assert NodeOk(v', d); }
  }

  function Nothing(): FileState
  {
    FileState(0, seq(MAX_BLOCKS, _ => ZeroBlock()), {})
  }

  /** Truncation does not look at the type: emptying an inode keeps the invariant
      exactly when it is a regular file, or the root and the root names nothing. */
  lemma TruncateKeepsIff(sb: Superblock, v: Vol, ino: nat, v': Vol)
    requires FsInv(sb, v) && ino in v.inoUsed && WellSized(sb, v') && FileStep(sb, v, ino, v')
    requires FileAt(v', ino) == Nothing()
    ensures ino < |v.inodes| && (FsInv(sb, v') <==> !BreaksEmptied(v, ino))
    ensures Sound(sb, v') && Becomes(v, ino, Nothing(), v') && (NoLeak(sb, v) <==> NoLeak(sb, v'))
  {
    hide Sound, Tree, FileAt, NoLeak, Step, NamesOf, DirFile, EntriesOf, Relists, Keeps, Fine;
    assert NodeOk(v, ino);
    EmptyFine(FileAt(v', ino));
    NoEntries(FileAt(v', ino));
    if v.inodes[ino].typ == TYPE_FILE {
      FileStepKeeps(sb, v, ino, v');
      OneFileChanged(v, v', ino);
    } else {
      DirChanged(sb, v, ino, v');
      DirEntries(v, ino);
      RelistNothing(NamesOf(v), ino);
    }
  }

  /** What the caller can see of it before the call. */
  ghost predicate BreaksEmptied(v: Vol, ino: nat)
    requires ino < |v.inodes|
  {
    v.inodes[ino].typ == TYPE_DIR && !(ino == ROOT && EntriesOf(FileAt(v, ino)) == [])
  }

  lemma NoEntries(f: FileState)
    requires f == Nothing()
    ensures DirFile(f) && EntriesOf(f) == []
  {
    EmptyFine(f);
    assert Below(0) == {};
    assert Content(f) == [];
  }

  /** The write leaves directory `d`, whose bytes are `was`, with bytes that are a
      directory, list the same and have no hole. */
  predicate KeepsListing(d: nat, was: seq<U8>, off: nat, bytes: seq<U8>)
  {
    var now := Overwrite(was, off, bytes);
    off / 512 <= BlocksFor(|was|) && WellFormed(now) && Relists(d, Parse(was), Parse(now))
  }

  /** Neither does a write look at the type: storing bytes in a directory keeps the
      invariant exactly when they leave it listing the same. */
  lemma WriteKeepsIff(sb: Superblock, v: Vol, d: nat, off: nat, bytes: seq<U8>, v': Vol)
    requires FsInv(sb, v) && IsDirAt(v, d) && WellSized(sb, v') && FileStep(sb, v, d, v')
    requires bytes != [] && off + |bytes| <= MAX_SIZE && FileAt(v', d) == Put(FileAt(v, d), off, bytes)
    ensures Sound(sb, v') && Becomes(v, d, Put(FileAt(v, d), off, bytes), v') && (NoLeak(sb, v) <==> NoLeak(sb, v'))
    ensures d < |v.inodes| && DirFile(FileAt(v, d))
    ensures FsInv(sb, v') <==> KeepsListing(d, Content(FileAt(v, d)), off, bytes)
  {
    hide Sound, Tree, FileAt, NoLeak, Step, NamesOf, Relists, Keeps, Put, Overwrite, Content, Parse, WellFormed;
    hide ZeroTail;
    DirChanged(sb, v, d, v');
    DirEntries(v, d);
    PutContent(FileAt(v, d), off, bytes);
    PutSolid(FileAt(v, d), off, bytes);
    PutSize(FileAt(v, d), off, bytes);
  }

  lemma PutSize(f: FileState, off: nat, bytes: seq<U8>)
    requires |f.pages| == MAX_BLOCKS && f.size <= MAX_SIZE && bytes != [] && off + |bytes| <= MAX_SIZE
    ensures |Put(f, off, bytes).pages| == MAX_BLOCKS && Put(f, off, bytes).size <= MAX_SIZE
  {
  }

  lemma EmptyFine(f: FileState)
    requires f == Nothing()
    ensures Fine(f)
  {
  }

  lemma SliceIsContent(f: FileState, off: nat, count: nat)
    requires |f.pages| == MAX_BLOCKS && f.size <= MAX_SIZE && off + count <= f.size
    ensures Slice(f.pages, off, count) == Content(f)[off..off + count]
  {
  }

  lemma FileFits(sb: Superblock, v: Vol, ino: nat)
    requires FsInv(sb, v) && ino in v.inoUsed
    ensures ino < |v.inodes| && FileAt(v, ino).size <= MAX_SIZE
  {
    assert NodeOk(v, ino);
  }

  /** kfs_vnode_read on an inode of any type: the bytes of the content from the position
      on, up to the first hole; a file without holes never fails. */
  method ReadFile(k: Kfs, ino: nat, offset: nat, count: nat) returns (st: Status, bytes: seq<U8>)
    requires k.Valid() && FsInv(k.sb, k.V()) && offset < OFFSET_LIMIT
    ensures ino in k.V().inoUsed ==> ino < |k.V().inodes| && FileAt(k.V(), ino).size <= MAX_SIZE
    ensures st == OK && ino in k.V().inoUsed ==>
      var content := Content(FileAt(k.V(), ino));
      bytes == if offset >= |content| then []
               else if offset + count > |content| then content[offset..] else content[offset..offset + count]
    ensures ino in k.V().inoUsed && Solid(FileAt(k.V(), ino)) ==> st == OK
    ensures ino >= k.sb.inodeCount ==> st == EINVAL
    ensures ino < k.sb.inodeCount && ino !in k.V().inoUsed ==> st == ENOENT
    ensures ino in k.V().inoUsed ==>
      var f := FileAt(k.V(), ino);
      st == OK <==> forall p: nat :: offset <= p < f.size && p < offset + count ==> p / 512 in f.mapped
    ensures ino in k.V().inoUsed && st != OK ==>
      var f := FileAt(k.V(), ino);
      && st == ENOENT && offset + |bytes| < f.size && |bytes| < count && (offset + |bytes|) / 512 !in f.mapped
      && bytes == Content(f)[offset..offset + |bytes|]
  {
    hide Kfs.V, Kfs.Valid, Sound, Tree, FileAt, NamesOf, Owns, Slice, Content, ZeroTail, Pages, Mapped;
    var f := new OpenFile(false, false);
    f.offset := offset;
    ghost var v := k.V();
    if ino in v.inoUsed { SoundOwns(k.sb, v, ino); FileAtOf(v, ino); FileFits(k.sb, v, ino); }
    st, bytes := Read(k, f, ino, count);
    if ino in v.inoUsed {
      var file := FileAt(v, ino);
      var want := ToRead(file.size, offset, count);
      if want > 0 {
        TouchedMeans(file.mapped, offset, want);
        SliceIsContent(file, offset, |bytes|);
      }
    }
  }

  lemma TouchedMeans(mapped: set<nat>, off: nat, want: nat)
    requires want > 0
    ensures Touched(off, want) <= mapped <==> forall p: nat :: off <= p < off + want ==> p / 512 in mapped
  {
    if Touched(off, want) <= mapped {
      forall p: nat | off <= p < off + want ensures p / 512 in mapped { assert Touches(off, want, p / 512); }
    }
    if forall p: nat :: off <= p < off + want ==> p / 512 in mapped {
      forall lb | lb in Touched(off, want) ensures lb in mapped {
        var p := if 512 * lb < off then off else 512 * lb;
        assert p / 512 == lb;
      }
    }
  }

  /** Reading back what was written gives what was written. */
  lemma ReadAfterWrite(was: seq<U8>, off: nat, bytes: seq<U8>)
    ensures var now := Overwrite(was, off, bytes);
            && off + |bytes| <= |now| && now[off..off + |bytes|] == bytes
            && (forall p :: 0 <= p < |was| && !(off <= p < off + |bytes|) ==> now[p] == was[p])
            && (forall p :: |was| <= p < off ==> now[p] == 0)
            && |now| == if off + |bytes| > |was| then off + |bytes| else |was|
  {
  }

  /** Mounting again loads the allocator state and the volume that were there. */
  method Remount(k: Kfs) returns (k': Kfs)
    requires k.Valid()
    ensures k'.Valid() && k'.disk == k.disk && k'.V() == k.V()
    ensures k'.blockBitmap[..] == k.blockBitmap[..] && k'.inodeBitmap[..] == k.inodeBitmap[..]
  {
    hide VolOf, Formatted, Synced;
    k' := new Kfs(k.sb, k.disk);
    SyncedSame(k.disk[..], k.sb.bbStart, k.blockBitmap[..], k'.blockBitmap[..]);
    SyncedSame(k.disk[..], k.sb.ibStart, k.inodeBitmap[..], k'.inodeBitmap[..]);
  }

  lemma SyncedSame(disk: Disk, start: nat, a: seq<U8>, b: seq<U8>)
    requires |a| == |b| && |a| % 512 == 0 && start + |a| / 512 <= |disk|
    requires Synced(disk, start, a) && Synced(disk, start, b)
    ensures a == b
  {
    forall i | 0 <= i < |a| ensures a[i] == b[i] {
      var s := i / 512;
      assert disk[start + s] == a[512 * s..512 * s + 512] == b[512 * s..512 * s + 512];
      assert a[512 * s..512 * s + 512][i % 512] == a[i] && b[512 * s..512 * s + 512][i % 512] == b[i];
    }
  }

  // ----------------------------------------------------------------- runs

  datatype Op =
    | WriteOp(ino: nat, offset: nat, append: bool, src: seq<U8>)
    | TruncateOp(ino: nat)
    | CreateOp(dir: nat, name: Name, isDir: bool)
    | UnlinkOp(dir: nat, name: Name)
    | RmdirOp(dir: nat, name: Name)

  /** What callers may pass: names are C strings, positions fit. */
  predicate ValidOp(op: Op)
  {
    match op
    case WriteOp(_, offset, _, _) => offset < OFFSET_LIMIT
    case TruncateOp(_) => true
    case CreateOp(_, name, _) => NoNul(name)
    case UnlinkOp(_, _) => true
    case RmdirOp(_, _) => true
  }

  // ------------------------------------------------------- what a call does

  /** A write reaches the loop: an allocated inode and at least one byte. */
  ghost predicate Writes(v: Vol, ino: nat, src: seq<U8>)
  {
    ino in v.inoUsed && ino < |v.inodes| && src != []
  }

  function Position(v: Vol, ino: nat, offset: nat, append: bool): nat
    requires ino < |v.inodes|
  {
    if append then v.inodes[ino].size else offset
  }

  /** File `ino` is the only one to change, into `f`. */
  ghost predicate Becomes(v: Vol, ino: nat, f: FileState, v': Vol)
  {
    && ino < |v.inodes| == |v'.inodes| && FileAt(v', ino) == f && v'.inoUsed == v.inoUsed
    && Keeps(v, v', v.inoUsed - {ino})
    && NamesOf(v') == if IsDirAt(v, ino) then Relisted(NamesOf(v), ino, EntriesOf(f)) else NamesOf(v)
  }

  /** The first `n` bytes of `src` were stored, and for the next one there was no
      block. */
  ghost predicate Stored(sb: Superblock, v: Vol, ino: nat, off: nat, src: seq<U8>, n: nat, v': Vol)
    requires ino < |v.inodes|
  {
    && 0 < n <= |src| && Becomes(v, ino, Put(FileAt(v, ino), off, src[..n]), v')
    && (n < |src| ==> Stuck(sb, v', v'.inodes[ino], off + n))
  }

  /** The write stores something, or fails and may lose its indirect block. */
  ghost predicate WriteDid(sb: Superblock, v: Vol, ino: nat, offset: nat, append: bool, src: seq<U8>, v': Vol)
  {
    if !Writes(v, ino, src) then v' == v
    else
      var off := Position(v, ino, offset, append);
      if !Stuck(sb, v, v.inodes[ino], off) then exists n: nat :: Stored(sb, v, ino, off, src, n, v')
      else if LosesIndirect(sb, v, v.inodes[ino], off / 512) then Leaked(sb, v, v')
      else v' == v
  }

  ghost predicate TruncateDid(v: Vol, ino: nat, v': Vol)
  {
    if ino in v.inoUsed && ino < |v.inodes| then Becomes(v, ino, Nothing(), v') else v' == v
  }

  ghost predicate CreateDid(sb: Superblock, v: Vol, d: nat, name: Name, isDir: bool, v': Vol)
    requires |v.inodes| == sb.inodeCount
  {
    if !MakesNew(sb, v, d, name) then v' == v
    else if CreateStatus(sb, v, d, name, isDir) != OK then RolledBack(v, v') && NamesOf(v') == NamesOf(v)
    else exists ino: nat, written: nat :: Linked(sb, v, d, name, isDir, ino, written, v') && LowestFree(v, ino)
  }

  ghost predicate LowestFree(v: Vol, ino: nat)
  {
    forall j :: 1 <= j < ino ==> j in v.inoUsed
  }

  /** The entry and its inode are gone, everything else is as it was. */
  ghost predicate RemoveDid(v: Vol, d: nat, name: Name, st: Status, v': Vol)
  {
    var ns := NamesOf(v);
    if st != OK then v' == v
    else
      && d in ns.dirs && IndexOf(ns.dirs[d], name) < |ns.dirs[d]|
      && var i := IndexOf(ns.dirs[d], name);
         && NamesOf(v') == Remove(ns, d, i) && v'.inoUsed == v.inoUsed - {ns.dirs[d][i].ino as nat}
         && Keeps(v, v', v.inoUsed - {ns.dirs[d][i].ino, d})
  }

  ghost predicate Did(sb: Superblock, v: Vol, op: Op, v': Vol)
  {
    && |v.inodes| == sb.inodeCount
    && match op
       case WriteOp(ino, offset, append, src) => WriteDid(sb, v, ino, offset, append, src, v')
       case TruncateOp(ino) => TruncateDid(v, ino, v')
       case CreateOp(d, name, isDir) => CreateDid(sb, v, d, name, isDir, v')
       case UnlinkOp(d, name) => RemoveDid(v, d, name, UnlinkStatus(sb, v, d, name), v')
       case RmdirOp(d, name) => RemoveDid(v, d, name, RmdirStatus(sb, v, d, name), v')
  }

  /** The call takes the last free block for an indirect block and then fails. */
  ghost predicate Loses(sb: Superblock, v: Vol, op: Op)
  {
    match op
    case WriteOp(ino, offset, append, src) =>
      && Writes(v, ino, src)
      && var off := Position(v, ino, offset, append);
         Stuck(sb, v, v.inodes[ino], off) && LosesIndirect(sb, v, v.inodes[ino], off / 512)
    case CreateOp(d, name, isDir) => MakesNew(sb, v, d, name) && LosesBlock(sb, v, d, isDir)
    case _ => false
  }

  /** The call is a write that starts past the block behind the end of the file, or
      that is cut short. */
  ghost predicate Rough(sb: Superblock, v: Vol, op: Op, v': Vol)
  {
    match op
    case WriteOp(ino, offset, append, src) => RoughWrite(sb, v, ino, offset, append, src, v')
    case _ => false
  }

  ghost predicate RoughWrite(sb: Superblock, v: Vol, ino: nat, offset: nat, append: bool, src: seq<U8>, v': Vol)
  {
    && Writes(v, ino, src)
    && var off := Position(v, ino, offset, append);
       off / 512 > BlocksFor(v.inodes[ino].size) || exists n: nat :: n < |src| && Stored(sb, v, ino, off, src, n, v')
  }

  /** The call breaks the invariant: a create that is cut short, a directory emptied
      or overwritten so that it no longer lists what it did. */
  ghost predicate Breaks(sb: Superblock, v: Vol, op: Op, v': Vol)
  {
    match op
    case WriteOp(ino, offset, append, src) => BreaksWrite(sb, v, ino, offset, append, src, v')
    case TruncateOp(ino) => ino in v.inoUsed && ino < |v.inodes| && BreaksEmptied(v, ino)
    case CreateOp(d, name, isDir) => ShortCreate(sb, v, d, name, isDir)
    case _ => false
  }

  ghost predicate BreaksWrite(sb: Superblock, v: Vol, ino: nat, offset: nat, append: bool, src: seq<U8>, v': Vol)
  {
    && Writes(v, ino, src) && v.inodes[ino].typ == TYPE_DIR && DirFile(FileAt(v, ino))
    && var off := Position(v, ino, offset, append);
       && !Stuck(sb, v, v.inodes[ino], off)
       && exists n: nat :: Unlists(sb, v, ino, off, src, n, v')
  }

  ghost predicate Unlists(sb: Superblock, v: Vol, ino: nat, off: nat, src: seq<U8>, n: nat, v': Vol)
    requires ino < |v.inodes| && DirFile(FileAt(v, ino))
  {
    Stored(sb, v, ino, off, src, n, v') && !KeepsListing(ino, Content(FileAt(v, ino)), off, src[..n])
  }

  /** The volumes before, between and after the first `done` calls. */
  ghost predicate Traced(sb: Superblock, trace: seq<Vol>, ops: seq<Op>, done: nat)
  {
    done <= |ops| && |trace| == done + 1 && forall i :: 0 <= i < done ==> Did(sb, trace[i], ops[i], trace[i + 1])
  }

  ghost predicate NoLoss(sb: Superblock, trace: seq<Vol>, ops: seq<Op>, done: nat)
    requires done <= |ops| && done <= |trace|
  {
    forall i :: 0 <= i < done ==> !Loses(sb, trace[i], ops[i])
  }

  ghost predicate Smooth(sb: Superblock, trace: seq<Vol>, ops: seq<Op>, done: nat)
    requires done <= |ops| && done < |trace|
  {
    forall i :: 0 <= i < done ==> !Rough(sb, trace[i], ops[i], trace[i + 1])
  }

  /** Inodes that kept their file are as neat as before. */
  lemma CleanFrom(sb: Superblock, v: Vol, v': Vol, S: set<nat>)
    requires Clean(sb, v) && NoLeak(sb, v') && Keeps(v, v', S) && S <= v.inoUsed
    requires forall i :: i in v'.inoUsed && i !in S ==> Neat(v', i)
    ensures Clean(sb, v')
  {
    hide NoLeak, FileAt, Solid;
    forall i | i in v'.inoUsed ensures Neat(v', i) {
      if i in S { assert Neat(v, i); }
    }
  }

  /** A write that starts no further than one block past the end, and is
      complete, leaves the file neat. */
  lemma WriteNeat(sb: Superblock, v: Vol, ino: nat, off: nat, bytes: seq<U8>, v': Vol)
    requires Neat(v, ino) && ino < |v'.inodes| && bytes != [] && off + |bytes| <= MAX_SIZE
    requires FileAt(v', ino) == Put(FileAt(v, ino), off, bytes) && off / 512 <= BlocksFor(v.inodes[ino].size)
    requires v'.inodes[ino].indirect != v.inodes[ino].indirect ==> (off + |bytes| - 1) / 512 >= DIRECT
    ensures Neat(v', ino)
  {
    PutSolid(FileAt(v, ino), off, bytes);
    hide Solid, Patch, Pages, Mapped;
  }

  /** A write that stored something had room for its first byte. */
  lemma HadBlock(sb: Superblock, v: Vol, ino: nat, off: nat, bytes: seq<U8>, v': Vol)
    requires ino < |v.inodes| && Owns(sb, v, v.inodes[ino]) && FileStep(sb, v, ino, v')
    requires Grows(v.inodes[ino], v.data, v'.inodes[ino], v'.data)
    requires WellSized(sb, v') && 0 < sb.dataStart && bytes != [] && off + |bytes| <= MAX_SIZE
    requires FileOf(v'.inodes[ino], v'.data) == Put(FileOf(v.inodes[ino], v.data), off, bytes)
    ensures !Stuck(sb, v, v.inodes[ino], off)
  {
    hide Ptr, Step, Owns, Grows, Pages, Blocks, Free, Patch;
    var n, n' := v.inodes[ino], v'.inodes[ino];
    assert Touches(off, |bytes|, off / 512) && off / 512 in Mapped(n', v'.data);
    HadRoom(sb, v, n, v'.(inodes := v.inodes), n', off / 512);
  }

  /** What a successful write of `n` bytes leaves, whatever the type of the inode. */
  lemma Written(sb: Superblock, v: Vol, ino: nat, off: nat, src: seq<U8>, n: nat, v': Vol)
    requires FsInv(sb, v) && ino in v.inoUsed && WellSized(sb, v') && FileStep(sb, v, ino, v') && 0 < n <= |src|
    requires ino < |v.inodes| == |v'.inodes| && off + n <= MAX_SIZE
    requires FileAt(v', ino) == Put(FileAt(v, ino), off, src[..n])
    requires n < |src| ==> Stuck(sb, v', v'.inodes[ino], off + n)
    ensures v.inodes[ino].typ == TYPE_DIR ==> DirFile(FileAt(v, ino))
    ensures Sound(sb, v') && (NoLeak(sb, v) <==> NoLeak(sb, v')) && Stored(sb, v, ino, off, src, n, v')
    ensures FsInv(sb, v') <==>
              v.inodes[ino].typ == TYPE_FILE || KeepsListing(ino, Content(FileAt(v, ino)), off, src[..n])
    ensures Keeps(v, v', v.inoUsed - {ino})
  {
    hide Sound, Tree, FileAt, NoLeak, FileStep, NamesOf, Put, Keeps, KeepsListing, Stuck, EntriesOf, Content, WellSized;
    hide Solid, WellFormed;
    assert NodeOk(v, ino);
    FileStepUsed(sb, v, ino, v');
    if v.inodes[ino].typ == TYPE_DIR {
      WriteKeepsIff(sb, v, ino, off, src[..n], v');
    } else {
      FileStepTypes(sb, v, ino, v');
      WriteKeepsInv(sb, v, ino, off, src[..n], v');
      InvSound(sb, v');
    }
  }

  /** Whichever count is taken for the bytes stored, they leave the same bytes. */
  lemma StoredOnce(sb: Superblock, v: Vol, ino: nat, off: nat, src: seq<U8>, n: nat, m: nat, v': Vol)
    requires ino < |v.inodes| && DirFile(FileAt(v, ino)) && off + n <= MAX_SIZE
    requires Stored(sb, v, ino, off, src, n, v') && Stored(sb, v, ino, off, src, m, v')
    ensures KeepsListing(ino, Content(FileAt(v, ino)), off, src[..n])
            <==> KeepsListing(ino, Content(FileAt(v, ino)), off, src[..m])
  {
    hide FileAt, NamesOf, Keeps, Stuck, Content, Parse, WellFormed, Relists, Overwrite, Patch, Touched;
    PutContent(FileAt(v, ino), off, src[..n]);
    PutContent(FileAt(v, ino), off, src[..m]);
  }

  /** The bytes of a directory; nothing for other files. */
  method DirBytes(k: Kfs, ino: nat, n: Inode) returns (was: seq<U8>)
    requires k.Valid() && FsInv(k.sb, k.V()) && ino in k.V().inoUsed && ino < |k.V().inodes| && n == k.V().inodes[ino]
    ensures n.typ == TYPE_DIR ==> DirFile(FileAt(k.V(), ino)) && was == Content(FileAt(k.V(), ino))
  {
    hide Kfs.V, Kfs.Valid, Sound, Tree, FileAt, NamesOf, Owns, WellFormed;
    was := [];
    if n.typ != TYPE_DIR { return; }
    assert NodeOk(k.V(), ino);
    SoundOwns(k.sb, k.V(), ino);
    FileAtOf(k.V(), ino);
    if n.size > 0 { was := ReadAll(k, n); }
  }

  /** kfs_vnode_write on an open inode, whatever its type. */
  method WriteFile(k: Kfs, ino: nat, offset: nat, append: bool, src: seq<U8>) returns (broken: bool)
    requires k.Valid() && FsInv(k.sb, k.V()) && offset < OFFSET_LIMIT
    modifies k.disk, k.blockBitmap
    ensures k.Valid() && Sound(k.sb, k.V()) && WriteDid(k.sb, old(k.V()), ino, offset, append, src, k.V())
    ensures FsInv(k.sb, k.V()) <==> !broken
    ensures broken <==> BreaksWrite(k.sb, old(k.V()), ino, offset, append, src, k.V())
    ensures var op := WriteOp(ino, offset, append, src);
            && (NoLeak(k.sb, k.V()) <==> NoLeak(k.sb, old(k.V())) && !Loses(k.sb, old(k.V()), op))
            && (Clean(k.sb, old(k.V())) && !Loses(k.sb, old(k.V()), op) && !Rough(k.sb, old(k.V()), op, k.V()) ==>
                  Clean(k.sb, k.V()))
  {
    hide Kfs.V, Kfs.Valid, Sound, Tree, FileAt, NoLeak, FileStep, NamesOf, NodesOk, Leaked, Keeps, FileOf, Put, Owns;
    hide Stuck, Neat, LosesIndirect, Grows, WellSized, KeepsListing, DirFile, Content, Stored;
    ghost var v := k.V();
    broken := false;
    ValidSizes(k);
    InvSound(k.sb, v);
    var st, n := k.ReadInode(ino);
    if st != OK { return; }
    SoundOwns(k.sb, v, ino);
    FileAtOf(v, ino);
    var was := DirBytes(k, ino, n);
    var f := new OpenFile(true, append);
    f.offset := offset;
    var written;
    st, written := Write(k, f, ino, src);
    if src == [] { return; }
    var off := if append then n.size else offset;
    if st == OK {
      ValidSizes(k);
      FileStepUsed(k.sb, v, ino, k.V());
      FileAtOf(k.V(), ino);
      Written(k.sb, v, ino, off, src, written, k.V());
      HadBlock(k.sb, v, ino, off, src[..written], k.V());
      broken := n.typ == TYPE_DIR && !KeepsListing(ino, was, off, src[..written]);
      KnownType(k.sb, v, ino);
      BreaksTold(k.sb, v, ino, offset, append, src, written, k.V());
      if Clean(k.sb, v) && !RoughWrite(k.sb, v, ino, offset, append, src, k.V()) {
        WriteNeat(k.sb, v, ino, off, src[..written], k.V());
        CleanFrom(k.sb, v, k.V(), v.inoUsed - {ino});
      }
    } else if LosesIndirect(k.sb, v, n, off / 512) {
      LeakedKeepsInv(k.sb, v, k.V()) by { ValidSizes(k); }
      InvSound(k.sb, k.V());
    }
  }

  lemma KnownType(sb: Superblock, v: Vol, ino: nat)
    requires FsInv(sb, v) && ino in v.inoUsed
    ensures ino < |v.inodes| && (v.inodes[ino].typ == TYPE_FILE || v.inodes[ino].typ == TYPE_DIR)
  {
    assert NodeOk(v, ino);
  }

  lemma BreaksTold(sb: Superblock, v: Vol, ino: nat, offset: nat, append: bool, src: seq<U8>, n: nat, v': Vol)
    requires Writes(v, ino, src) && (v.inodes[ino].typ == TYPE_DIR ==> DirFile(FileAt(v, ino)))
    requires var off := Position(v, ino, offset, append);
             && !Stuck(sb, v, v.inodes[ino], off) && off + n <= MAX_SIZE && Stored(sb, v, ino, off, src, n, v')
    ensures BreaksWrite(sb, v, ino, offset, append, src, v') <==>
              && v.inodes[ino].typ == TYPE_DIR
              && !KeepsListing(ino, Content(FileAt(v, ino)), Position(v, ino, offset, append), src[..n])
  {
    hide KeepsListing, FileAt, Content, Becomes, Stuck, WellFormed;
    if v.inodes[ino].typ == TYPE_DIR {
      var off := Position(v, ino, offset, append);
      if !KeepsListing(ino, Content(FileAt(v, ino)), off, src[..n]) {
        assert Unlists(sb, v, ino, off, src, n, v');
      }
      if BreaksWrite(sb, v, ino, offset, append, src, v') {
        var m: nat :| Unlists(sb, v, ino, off, src, m, v');
        StoredOnce(sb, v, ino, off, src, n, m, v');
      }
    }
  }

  lemma ValidSizes(k: Kfs)
    requires k.Valid()
    ensures WellSized(k.sb, k.V()) && Layout(k.sb) && 0 < k.sb.dataStart && |k.V().inodes| == k.sb.inodeCount
  {
  }

  lemma FileStepUsed(sb: Superblock, v: Vol, ino: nat, v': Vol)
    requires FileStep(sb, v, ino, v')
    ensures v'.inoUsed == v.inoUsed && |v'.inodes| == |v.inodes|
  {
  }

  /** kfs_vnode_truncate, whatever the type of the inode. */
  method TruncateFile(k: Kfs, ino: nat) returns (broken: bool)
    requires k.Valid() && FsInv(k.sb, k.V())
    modifies k.disk, k.blockBitmap
    ensures k.Valid() && Sound(k.sb, k.V()) && TruncateDid(old(k.V()), ino, k.V())
    ensures FsInv(k.sb, k.V()) <==> !broken
    ensures broken <==> Breaks(k.sb, old(k.V()), TruncateOp(ino), k.V())
    ensures NoLeak(k.sb, k.V()) <==> NoLeak(k.sb, old(k.V()))
    ensures Clean(k.sb, old(k.V())) ==> Clean(k.sb, k.V())
  {
    hide Kfs.V, Kfs.Valid, Sound, Tree, FileAt, NoLeak, FileStep, NamesOf, NodesOk, Keeps, FileOf, Owns, Neat;
    hide EntriesOf;
    ghost var v := k.V();
    broken := false;
    ValidSizes(k);
    InvSound(k.sb, v);
    var st, n := k.ReadInode(ino);
    if st != OK { return; }
    SoundOwns(k.sb, v, ino);
    EmptyEntries(k.sb, v, ino);
    broken := n.typ == TYPE_DIR && !(ino == k.sb.root && n.size == 0);
    st := Truncate(k, ino);
    FileAtOf(k.V(), ino);
    TruncateKeepsIff(k.sb, v, ino, k.V());
    FileStepUsed(k.sb, v, ino, k.V());
    if Clean(k.sb, v) {
      assert Neat(k.V(), ino) by { EmptyNeat(k.V(), ino); }
      CleanFrom(k.sb, v, k.V(), v.inoUsed - {ino});
    }
  }

  /** A directory without entries is one of size 0. */
  lemma EmptyEntries(sb: Superblock, v: Vol, ino: nat)
    requires FsInv(sb, v) && ino in v.inoUsed
    ensures ino < |v.inodes|
    ensures v.inodes[ino].typ == TYPE_DIR ==> (EntriesOf(FileAt(v, ino)) == [] <==> v.inodes[ino].size == 0)
  {
    assert NodeOk(v, ino);
    if v.inodes[ino].typ == TYPE_DIR { EmptyDir(Content(FileAt(v, ino))); }
  }

  lemma EmptyNeat(v: Vol, ino: nat)
    requires ino < |v.inodes| && FileAt(v, ino) == Nothing() && v.inodes[ino].indirect == 0
    ensures Neat(v, ino)
  {
    hide FileAt;
    EmptyFine(FileAt(v, ino));
    assert Below(0) == {};
  }

  /** A create that neither loses a block nor is cut short keeps the volume clean. */
  lemma CreateClean(sb: Superblock, v: Vol, d: nat, name: Name, isDir: bool, ino: nat, written: nat, v': Vol)
    requires FsInv(sb, v) && Clean(sb, v) && MakesNew(sb, v, d, name) && FsInv(sb, v') && NoLeak(sb, v')
    requires Linked(sb, v, d, name, isDir, ino, written, v') && written == |Encode(NewEntry(ino, name, isDir))|
    ensures Clean(sb, v')
  {
    hide Sound, Tree, FileAt, NoLeak, Encode, Content, Keeps, NamesOf, CutShort, EntriesOf, DotEntries, IndexOf, Fine;
    hide Solid;
    assert Neat(v, d);
    assert Neat(v', d);
    assert Neat(v', ino) by {
      assert NodeOk(v', ino);
      if isDir {
        assert DirFile(FileAt(v', ino));
      } else {
        NewFileNeat(v', ino);
      }
    }
    CleanFrom(sb, v, v', v.inoUsed - {d});
  }

  /** An empty file keeps no block. */
  lemma NewFileNeat(v: Vol, ino: nat)
    requires ino < |v.inodes| && Fine(FileAt(v, ino)) && v.inodes[ino].size == 0
    ensures Solid(FileAt(v, ino))
  {
    assert Below(0) == {};
  }

  /** Removing keeps the volume clean. */
  lemma RemoveClean(sb: Superblock, v: Vol, d: nat, t: nat, v': Vol)
    requires Clean(sb, v) && FsInv(sb, v') && NoLeak(sb, v') && v'.inoUsed == v.inoUsed - {t}
    requires Keeps(v, v', v.inoUsed - {t, d}) && IsDirAt(v', d) && Tight(v'.inodes[d])
    ensures Clean(sb, v')
  {
    hide Sound, Tree, FileAt, NoLeak, Keeps, NamesOf, Solid;
    assert NodeOk(v', d);
    assert Neat(v', d);
    CleanFrom(sb, v, v', v.inoUsed - {t, d});
  }

  /** Create, told with what a run needs. */
  method CreateStep(k: Kfs, d: nat, name: Name, isDir: bool) returns (short: bool)
    requires k.Valid() && FsInv(k.sb, k.V()) && NoNul(name) && k.sb.inodeCount <= 0x1_0000_0000
    modifies k.disk, k.blockBitmap, k.inodeBitmap
    ensures k.Valid() && Sound(k.sb, k.V()) && |old(k.V()).inodes| == k.sb.inodeCount
    ensures CreateDid(k.sb, old(k.V()), d, name, isDir, k.V())
    ensures (FsInv(k.sb, k.V()) <==> !short) && (short <==> ShortCreate(k.sb, old(k.V()), d, name, isDir))
    ensures var op := CreateOp(d, name, isDir);
            && (NoLeak(k.sb, k.V()) <==> NoLeak(k.sb, old(k.V())) && !Loses(k.sb, old(k.V()), op))
            && (Clean(k.sb, old(k.V())) && !Loses(k.sb, old(k.V()), op) && !short ==> Clean(k.sb, k.V()))
  {
    hide Kfs.V, Kfs.Valid, Sound, Tree, NoLeak, NamesOf, NodesOk, Keeps, CreateStatus, Linked, MakesNew, LosesBlock;
    hide Add, ShortCreate, EntriesOf, FileAt, IndexOf, Encode, Neat;
    ghost var v := k.V();
    ValidSizes(k);
    var st, ino, written := Create(k, d, name, isDir);
    ghost var lost := MakesNew(k.sb, v, d, name) && LosesBlock(k.sb, v, d, isDir);
    if st == OK && MakesNew(k.sb, v, d, name) { assert LowestFree(v, ino); }
    ShortTold(k.sb, v, d, name, isDir, st, ino, written, k.V());
    short := st == OK && 0 < written < RecLen(name);
    if Clean(k.sb, v) && !lost && !short && MakesNew(k.sb, v, d, name) {
      if st == OK {
        LinkedFull(k.sb, v, d, name, isDir, ino, written, k.V());
        CreateClean(k.sb, v, d, name, isDir, ino, written, k.V());
      } else {
        CleanFrom(k.sb, v, k.V(), v.inoUsed);
      }
    }
  }

  lemma LinkedFull(sb: Superblock, v: Vol, d: nat, name: Name, isDir: bool, ino: nat, written: nat, v': Vol)
    requires ValidName(name) && d < |v.inodes| && Linked(sb, v, d, name, isDir, ino, written, v')
    requires !(0 < written < RecLen(name))
    ensures written == |Encode(NewEntry(ino, name, isDir))|
  {
  }

  /** Any run of calls, up to and with the first that breaks the invariant, keeps
      block ownership; the invariant holds exactly as long as no call broke it; no
      marked block is ever unreachable unless some call lost its indirect block; and
      without breaks, losses, cut writes or holes the checker keeps passing. */
  method Run(k: Kfs, ops: seq<Op>) returns (done: nat, broken: bool, ghost trace: seq<Vol>)
    requires k.Valid() && FsInv(k.sb, k.V()) && k.sb.inodeCount <= 0x1_0000_0000
    requires forall i :: 0 <= i < |ops| ==> ValidOp(ops[i])
    modifies k.disk, k.blockBitmap, k.inodeBitmap
    ensures k.Valid() && Sound(k.sb, k.V())
    ensures Traced(k.sb, trace, ops, done) && trace[0] == old(k.V()) && trace[done] == k.V()
    ensures FsInv(k.sb, k.V()) <==> !broken
    ensures broken <==> 0 < done && Breaks(k.sb, trace[done - 1], ops[done - 1], trace[done])
    ensures !broken ==> done == |ops|
    ensures NoLeak(k.sb, k.V()) <==> NoLeak(k.sb, old(k.V())) && NoLoss(k.sb, trace, ops, done)
    ensures Clean(k.sb, old(k.V())) && !broken && NoLoss(k.sb, trace, ops, done) && Smooth(k.sb, trace, ops, done) ==>
              Clean(k.sb, k.V()) && Passes(k.sb, k.V())
  {
    hide Kfs.V, Kfs.Valid, FsInv, Sound, NoLeak, Clean, Passes, Did, Loses, Rough, Breaks;
    done, broken, trace := 0, false, [k.V()];
    while done < |ops|
      invariant k.Valid() && FsInv(k.sb, k.V()) && !broken && Traced(k.sb, trace, ops, done) && trace[0] == old(k.V())
      invariant trace[done] == k.V()
      invariant 0 < done ==> !Breaks(k.sb, trace[done - 1], ops[done - 1], trace[done])
      invariant NoLeak(k.sb, k.V()) <==> NoLeak(k.sb, old(k.V())) && NoLoss(k.sb, trace, ops, done)
      invariant Clean(k.sb, old(k.V())) && NoLoss(k.sb, trace, ops, done) && Smooth(k.sb, trace, ops, done) ==>
                  Clean(k.sb, k.V())
    {
      ghost var v := k.V();
      broken := Call(k, ops[done]);
      TraceMore(k.sb, trace, ops, done, k.V());
      trace := trace + [k.V()];
      done := done + 1;
      if broken { return; }
    }
    InvSound(k.sb, k.V());
    PassesIffClean(k.sb, k.V());
  }

  lemma TraceMore(sb: Superblock, trace: seq<Vol>, ops: seq<Op>, done: nat, v: Vol)
    requires Traced(sb, trace, ops, done) && done < |ops| && Did(sb, trace[done], ops[done], v)
    ensures Traced(sb, trace + [v], ops, done + 1)
    ensures NoLoss(sb, trace + [v], ops, done + 1) <==>
              NoLoss(sb, trace, ops, done) && !Loses(sb, trace[done], ops[done])
    ensures Smooth(sb, trace + [v], ops, done + 1) <==>
              Smooth(sb, trace, ops, done) && !Rough(sb, trace[done], ops[done], v)
  {
    hide Did, Loses, Rough;
    var t := trace + [v];
    forall i | 0 <= i < done + 1
      ensures Did(sb, t[i], ops[i], t[i + 1]) { if i < done
    {
      assert Did(sb, trace[i], ops[i], trace[i + 1]); }
    }
    if NoLoss(sb, t, ops, done + 1) {
      forall i | 0 <= i < done ensures !Loses(sb, trace[i], ops[i]) { assert !Loses(sb, t[i], ops[i]); }
      assert !Loses(sb, t[done], ops[done]);
    }
    if Smooth(sb, t, ops, done + 1) {
      forall i | 0 <= i < done
        ensures !Rough(sb, trace[i], ops[i], trace[i + 1])
      {
        assert !Rough(sb, t[i], ops[i], t[i + 1]);
      }
      assert !Rough(sb, t[done], ops[done], t[done + 1]);
    }
  }

  lemma InvSound(sb: Superblock, v: Vol)
    requires FsInv(sb, v)
    ensures Sound(sb, v)
  {
  }

  /** One call. */
  method Call(k: Kfs, op: Op) returns (broken: bool)
    requires k.Valid() && FsInv(k.sb, k.V()) && k.sb.inodeCount <= 0x1_0000_0000 && ValidOp(op)
    modifies k.disk, k.blockBitmap, k.inodeBitmap
    ensures k.Valid() && Sound(k.sb, k.V()) && Did(k.sb, old(k.V()), op, k.V())
    ensures (FsInv(k.sb, k.V()) <==> !broken) && (broken <==> Breaks(k.sb, old(k.V()), op, k.V()))
    ensures NoLeak(k.sb, k.V()) <==> NoLeak(k.sb, old(k.V())) && !Loses(k.sb, old(k.V()), op)
    ensures Clean(k.sb, old(k.V())) && !broken && !Loses(k.sb, old(k.V()), op)
              && !Rough(k.sb, old(k.V()), op, k.V()) ==>
              Clean(k.sb, k.V())
  {
    hide Kfs.V, Kfs.Valid, FsInv, Sound, NoLeak, Clean, NamesOf, Keeps, UnlinkStatus, RmdirStatus, Remove, IndexOf;
    hide WriteDid, TruncateDid, CreateDid;
    hide ShortCreate, Writes, MakesNew, LosesBlock, RoughWrite, Stuck, LosesIndirect;
    ghost var v := k.V();
    ValidSizes(k);
    broken := false;
    match op
    case WriteOp(ino, offset, append, src) => broken := WriteFile(k, ino, offset, append, src);
    case TruncateOp(ino) => broken := TruncateFile(k, ino);
    case CreateOp(d, name, isDir) => broken := CreateStep(k, d, name, isDir);
    case UnlinkOp(d, name) =>
      var st := Unlink(k, d, name);
      InvSound(k.sb, k.V());
      if st == OK && Clean(k.sb, v) {
        RemoveClean(k.sb, v, d, NamesOf(v).dirs[d][IndexOf(NamesOf(v).dirs[d], name)].ino, k.V()) by {
          CleanNoLeak(k.sb, v);
        }
      }
    case RmdirOp(d, name) =>
      var st := Rmdir(k, d, name);
      InvSound(k.sb, k.V());
      if st == OK && Clean(k.sb, v) {
        RemoveClean(k.sb, v, d, NamesOf(v).dirs[d][IndexOf(NamesOf(v).dirs[d], name)].ino, k.V()) by {
          CleanNoLeak(k.sb, v);
        }
      }
  }

  lemma CleanNoLeak(sb: Superblock, v: Vol)
    requires Clean(sb, v)
    ensures NoLeak(sb, v)
  {
  }

  /** The byte count that create ignores tells whether the record was cut short. */
  lemma ShortTold(sb: Superblock, v: Vol, d: nat, name: Name, isDir: bool, st: Status, ino: nat, written: nat, v': Vol)
    requires |v.inodes| == sb.inodeCount && st == CreateStatus(sb, v, d, name, isDir) && NoNul(name)
    requires st == OK && MakesNew(sb, v, d, name) ==> Linked(sb, v, d, name, isDir, ino, written, v')
    requires !MakesNew(sb, v, d, name) || st != OK ==> written == 0
    ensures ShortCreate(sb, v, d, name, isDir) <==> st == OK && 0 < written < RecLen(name)
  {
    hide CutShort, Encode, IndexOf, EntriesOf, FileAt, NoNul, NodeOk, Solid, Content;
  }

  // ---------------------------------------------- format, mount, run, check

  /** From mkfs to kfsck: format an image with files of distinct names, mount it,
      make any calls, and check the disk. Unless a call broke the invariant, the
      verdict says whether the volume is clean, and it is when no call lost a block,
      was cut short or left a hole. With names that repeat, the namespace of the image
      is no tree, and nothing is run on it. */
  method Lifecycle(sb: Superblock, files: seq<Mkfs.HostFile>, ops: seq<Op>)
    returns (built: bool, broken: bool, pass: bool, done: nat, ghost trace: seq<Vol>)
    requires Layout(sb) && sb.inodeCount < 0x1_0000_0000 && |files| < 0x1_0000_0000
    requires forall i :: 0 <= i < |files| ==> ValidName(files[i].name) && !IsDots(files[i].name)
    requires forall i :: 0 <= i < |ops| ==> ValidOp(ops[i])
    ensures built <==> Mkfs.Fits(sb, files)
    ensures built ==> Traced(sb, trace, ops, done) && Mkfs.Built(sb, files, trace[0])
    ensures built ==> (FsInv(sb, trace[0]) <==> UniqueNames(Mkfs.RootEntries(files)))
    ensures built ==> (NoLeak(sb, trace[done]) <==> NoLoss(sb, trace, ops, done))
    ensures built && !FsInv(sb, trace[0]) ==> done == 0
    ensures built && FsInv(sb, trace[0]) ==>
      && (broken <==> 0 < done && Breaks(sb, trace[done - 1], ops[done - 1], trace[done]))
      && (!broken ==> done == |ops| && (pass <==> Clean(sb, trace[done])))
      && (!broken && NoLoss(sb, trace, ops, done) && Smooth(sb, trace, ops, done) ==> pass)
    ensures built ==> (pass <==> Passes(sb, trace[done]))
  {
    hide Mkfs.Image.V, Kfs.V, FsInv, Sound, NoLeak, Clean, Passes, VolOf, Mkfs.Built, Mkfs.Fits, ValidName;
    hide Formatted, Synced, Did, Loses, Rough, Breaks, UniqueNames;
    broken, pass, done, trace := false, false, 0, [];
    var img := new Mkfs.Image(sb);
    built := Mkfs.Build(img, files);
    if !built { return; }
    ImageClean(img.sb, img.V(), files);
    ghost var v := img.V();
    assert v == VolOf(sb, img.disk[..]) by { ImageVol(img); }
    var k := new Kfs(sb, img.disk);
    assert k.V() == v by { KfsVol(k); }
    trace := [v];
    if UniqueNames(Mkfs.RootEntries(files)) {
      done, broken, trace := Run(k, ops);
    }
    assert k.V() == VolOf(sb, k.disk[..]) by { KfsVol(k); }
    pass := Check(sb, k.disk[..]);
    if FsInv(sb, k.V()) { PassesIffClean(sb, k.V()); }
  }

  lemma ImageVol(img: Mkfs.Image)
    requires img.Valid()
    ensures img.disk.Length == img.sb.total && Formatted(img.sb, img.disk[..]) && img.V() == VolOf(img.sb, img.disk[..])
  {
  }

  lemma KfsVol(k: Kfs)
    requires k.Valid()
    ensures k.disk.Length == k.sb.total && k.V() == VolOf(k.sb, k.disk[..])
  {
  }

  lemma ImageClean(sb: Superblock, v: Vol, files: seq<Mkfs.HostFile>)
    requires Mkfs.Built(sb, files, v)
    ensures Clean(sb, v) && NoLeak(sb, v)
  {
    hide NoLeak, FileAt, Solid, EncodeAll, Content;
    forall i | i in v.inoUsed ensures Neat(v, i) {
      if i != ROOT { assert Mkfs.HoldsFile(v, files[i - 1], i); }
      FileAtOf(v, i);
    }
  }
}
