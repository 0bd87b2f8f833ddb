/** kfs_vnode_create (kernel/fs/kfs.c:725-852). */
module KfsCreate {
  import opened Bits
  import opened KfsFormat
  import opened KfsDevice
  import opened KfsPages
  import opened KfsFile
  import opened KfsContent
  import opened KfsVolume
  import opened KfsDirent
  import opened KfsNames
  import opened KfsNamespace

  // ------------------------------------------------------- the new inode

  function NewFile(): Inode
  {
    Inode(0, TYPE_FILE, NoDirect, 0, 1, 0, 0)
  }

  function NewDir(blk: U32): Inode
  {
    Inode(24, TYPE_DIR, [blk, 0, 0, 0, 0, 0, 0, 0, 0, 0], 0, 2, 0, 0)
  }

  function DotEntries(ino: U32, parent: U32): (es: seq<Entry>)
    ensures ValidEntries(es)
  {
    [Entry(ino, DIR8, [46]), Entry(parent, DIR8, [46, 46])]
  }

  /** The first block of a new directory: `.` and `..`, 12 bytes each. */
  function DotBlock(ino: U32, parent: U32): Block
  {
    Encode(Entry(ino, DIR8, [46])) + Encode(Entry(parent, DIR8, [46, 46])) + Zeros(488)
  }

  lemma DotBlockEntries(ino: U32, parent: U32)
    ensures DotBlock(ino, parent)[..24] == EncodeAll(DotEntries(ino, parent))
    ensures forall j :: 24 <= j < 512 ==> DotBlock(ino, parent)[j] == 0
  {
    var a, b := Entry(ino, DIR8, [46]), Entry(parent, DIR8, [46, 46]);
    hide Encode;
    EncodeAllConcat([a], [b]);
    EncodeOne(a);
    EncodeOne(b);
    assert [a] + [b] == DotEntries(ino, parent);
    var z := Encode(a) + Encode(b);
    assert DotBlock(ino, parent) == z + Zeros(488);
  }

  lemma NewFileFacts(sb: Superblock, data: DataMap)
    requires 0 !in data
    ensures Blocks(NewFile(), data) == {} && Distinct(sb, NewFile(), data)
    ensures FileOf(NewFile(), data) == FileState(0, seq(MAX_BLOCKS, _ => ZeroBlock()), {})
    ensures Fine(FileOf(NewFile(), data))
  {
    EmptiedFile(NewFile(), data);
    assert Emptied(NewFile()) == NewFile();
    hide Ptr;
  }

  lemma NewDirPtrs(blk: U32, data: DataMap, s: nat)
    requires 0 !in data && s < SLOTS
    ensures Ptr(NewDir(blk), data, s) == if s == 0 then blk else 0
  {
  }

  lemma NewDirBlocks(sb: Superblock, blk: U32, data: DataMap)
    requires 0 !in data && blk != 0 && sb.dataStart <= blk < sb.total
    ensures Blocks(NewDir(blk), data) == {blk} && Distinct(sb, NewDir(blk), data)
    ensures Mapped(NewDir(blk), data) == {0}
  {
    hide Ptr;
    forall s: nat | s < SLOTS
      ensures Ptr(NewDir(blk), data, s) == if s == 0 then blk else 0
    {
      NewDirPtrs(blk, data, s);
    }
    assert blk in Blocks(NewDir(blk), data) by { PtrInBlocks(NewDir(blk), data, 0); }
  }

  lemma NewDirPages(ino: U32, parent: U32, blk: U32, data: DataMap, lb: nat)
    requires 0 !in data && blk in data && data[blk] == DotBlock(ino, parent) && lb < MAX_BLOCKS
    ensures Pages(NewDir(blk), data)[lb] == if lb == 0 then DotBlock(ino, parent) else ZeroBlock()
  {
    hide Ptr, DotBlock;
    NewDirPtrs(blk, data, SlotOf(lb));
  }

  /** A file of one page whose first `size` bytes are `b[..size]`. */
  lemma OnePage(pages: seq<Block>, b: Block, size: nat)
    requires |pages| == MAX_BLOCKS && size <= 512
    requires forall lb: nat :: lb < MAX_BLOCKS ==> pages[lb] == if lb == 0 then b else ZeroBlock()
    requires forall j :: size <= j < 512 ==> b[j] == 0
    ensures Bytes(pages, size) == b[..size]
    ensures forall p: nat :: size <= p < MAX_SIZE ==> ByteOf(pages, p) == 0
  {
    forall p: nat | size <= p < MAX_SIZE ensures ByteOf(pages, p) == 0 {
      if p / 512 == 0 { assert p % 512 == p; }
    }
    forall p: nat | p < size ensures Bytes(pages, size)[p] == b[..size][p] {
      assert p < 512 ==> p / 512 == 0 && p % 512 == p;
    }
  }

  /** A new directory is well formed and lists `.` and `..`. */
  lemma NewDirFile(ino: U32, parent: U32, blk: U32, data: DataMap)
    requires 0 !in data && blk in data && data[blk] == DotBlock(ino, parent)
    requires Mapped(NewDir(blk), data) == {0}
    ensures var f := FileOf(NewDir(blk), data); DirFile(f) && EntriesOf(f) == DotEntries(ino, parent)
  {
    hide DotBlock, Encode, EncodeAll, Parse, Ptr, Pages, Mapped, DotEntries, Bytes, ByteOf;
    var f := FileOf(NewDir(blk), data);
    forall lb: nat | lb < MAX_BLOCKS ensures f.pages[lb] == if lb == 0 then DotBlock(ino, parent) else ZeroBlock() {
      NewDirPages(ino, parent, blk, data, lb);
    }
    DotBlockEntries(ino, parent);
    ParseEncodeAll(DotEntries(ino, parent));
    OnePage(f.pages, DotBlock(ino, parent), 24);
    assert f.mapped == Below(BlocksFor(f.size));
  }

  ghost predicate NoInode(sb: Superblock, v: Vol)
  {
    forall j :: 1 <= j < sb.inodeCount ==> j in v.inoUsed
  }

  /** The new inode is in place. */
  ghost predicate Born(sb: Superblock, v: Vol, ino: nat, isDir: bool, parent: U32, v': Vol)
  {
    && 1 <= ino < sb.inodeCount && ino < 0x1_0000_0000 && Grown(sb, v, ino, v') && NodeOk(v', ino)
    && |Free(sb, v')| == |Free(sb, v)| - (if isDir then 1 else 0)
    && (if isDir then IsDirAt(v', ino) && EntriesOf(FileAt(v', ino)) == DotEntries(ino, parent)
                      && (exists blk: U32 :: blk != 0 && v'.inodes[ino] == NewDir(blk) && BlocksAt(v', ino) == {blk})
        else v'.inodes[ino] == NewFile() && BlocksAt(v', ino) == {})
  }

  lemma FileBorn(sb: Superblock, v: Vol, ino: nat, v': Vol)
    requires Layout(sb) && WellSized(sb, v) && 1 <= ino < sb.inodeCount && ino !in v.inoUsed && ino < 0x1_0000_0000
    requires v' == v.(inoUsed := v.inoUsed + {ino}, inodes := v.inodes[ino := NewFile()])
    ensures Born(sb, v, ino, false, 0, v')
  {
    hide Blocks, Distinct, FileOf, Fine, DirFile;
    NewFileFacts(sb, v'.data);
    SameFree(sb, v, v');
  }

  lemma DirBorn(sb: Superblock, v: Vol, ino: U32, blk: U32, parent: U32, v': Vol)
    requires Layout(sb) && WellSized(sb, v) && 1 <= ino < sb.inodeCount && ino !in v.inoUsed
    requires sb.dataStart <= blk < sb.total && blk !in v.blkUsed
    requires v' == v.(inoUsed := v.inoUsed + {ino}, inodes := v.inodes[ino := NewDir(blk)],
                      blkUsed := v.blkUsed + {blk}, data := v.data[blk := DotBlock(ino, parent)])
    ensures Born(sb, v, ino, true, parent, v')
  {
    hide Blocks, Distinct, FileOf, Fine, DirFile, DotBlock, EntriesOf, DotEntries;
    NewDirBlocks(sb, blk, v'.data);
    NewDirFile(ino, parent, blk, v'.data);
    FreeAfterAlloc(sb, v, v', OK, blk);
  }

  /** Lines 745-797: take the lowest free inode and, for a directory, a block
      holding `.` and `..`. */
  method NewInode(k: Kfs, isDir: bool, parent: U32) returns (st: Status, ino: nat)
    requires k.Valid() && k.sb.inodeCount <= 0x1_0000_0000
    modifies k.disk, k.blockBitmap, k.inodeBitmap
    ensures k.Valid()
    ensures st == if NoInode(k.sb, old(k.V())) || (isDir && Free(k.sb, old(k.V())) == {}) then ENOSPC else OK
    ensures st != OK ==> k.V() == old(k.V()).(inodes := k.V().inodes) && Keeps(old(k.V()), k.V(), old(k.V()).inoUsed)
    ensures st == OK ==> Born(k.sb, old(k.V()), ino, isDir, if isDir then parent else 0, k.V())
                         && (forall j :: 1 <= j < ino ==> j in old(k.V()).inoUsed)
  {
    hide Kfs.V, Kfs.Valid, Blocks, FileOf, DotBlock, Free, Born;
    ghost var v := k.V();
    st, ino := k.AllocInode(if isDir then TYPE_DIR else TYPE_FILE);
    if st != OK { return; }
    if !isDir {
      FileBorn(k.sb, v, ino, k.V());
      return;
    }
    ghost var v1 := k.V();
    SameFree(k.sb, v, v1);
    var blk: nat;
    st, blk := k.AllocBlock();
    FreeAfterAlloc(k.sb, v1, k.V(), st, blk);
    if st != OK {
      var r := k.FreeInode(ino);
      return;
    }
    k.WriteBlock(blk, DotBlock(ino, parent));
    var r := k.WriteInode(ino, NewDir(blk));
    assert k.V() == v.(inoUsed := v.inoUsed + {ino}, inodes := v.inodes[ino := NewDir(blk)],
                       blkUsed := v.blkUsed + {blk}, data := v.data[blk := DotBlock(ino, parent)]);
    DirBorn(k.sb, v, ino, blk, parent, k.V());
  }

  /** Lines 833-841: give the new inode back. */
  method DropInode(k: Kfs, ino: nat, isDir: bool)
    requires k.Valid() && Sound(k.sb, k.V()) && ino in k.V().inoUsed && ino != 0
    requires if !isDir then BlocksAt(k.V(), ino) == {}
             else exists blk: U32 :: blk != 0 && k.V().inodes[ino] == NewDir(blk) && BlocksAt(k.V(), ino) == {blk}
    modifies k.disk, k.blockBitmap, k.inodeBitmap
    ensures k.Valid() && Shrunk(old(k.V()), ino, k.V())
  {
    hide Kfs.V, Kfs.Valid, Blocks, Owns;
    ghost var v := k.V();
    if isDir {
      var st, n := k.ReadInode(ino);
      if st == OK && n.direct[0] != 0 {
        assert n.direct[0] in BlocksAt(v, ino);
        assert k.sb.dataStart <= n.direct[0] < k.sb.total by { SoundOwns(k.sb, v, ino); OwnedPtr(k.sb, v, n, 0); }
        var r := k.FreeBlock(n.direct[0]);
      }
    }
    var r := k.FreeInode(ino);
  }

  // --------------------------------------------------- the new dir entry

  /** `free` free blocks do not suffice to map the block of byte `pos`. */
  ghost predicate StuckWith(free: int, n: Inode, data: DataMap, pos: nat)
  {
    pos / 512 >= MAX_BLOCKS || free < Need(n, data, pos / 512)
  }

  /** The record straddles two blocks, the first one is there, and no block can
      be had for the second. */
  ghost predicate CutShort(free: int, n: Inode, data: DataMap, reclen: nat)
  {
    n.size % 512 != 0 && n.size % 512 + reclen > 512 && StuckWith(free, n, data, (n.size / 512 + 1) * 512)
  }

  /** The record starts on a block boundary, and no block can be had for it. */
  ghost predicate NoRoom(free: int, n: Inode, data: DataMap)
  {
    n.size % 512 == 0 && StuckWith(free, n, data, n.size)
  }

  /** If a page got mapped, there had been enough free blocks to map it. */
  lemma HadRoom(sb: Superblock, v: Vol, n: Inode, v': Vol, n': Inode, lb: nat)
    requires Owns(sb, v, n) && Step(sb, v, n, v', n') && Grows(n, v.data, n', v'.data) && 0 !in v'.data
    requires lb < MAX_BLOCKS && IsMapped(n', v'.data, lb)
    ensures |Free(sb, v)| >= Need(n, v.data, lb)
  {
    if !IsMapped(n, v.data, lb) {
      var p := Ptr(n', v'.data, SlotOf(lb));
      NewPointer(sb, v, n, v', n', SlotOf(lb));
      if lb >= DIRECT && n.indirect == 0 {
        IndPtr(n, v.data);
        IndPtr(n', v'.data);
        assert n'.indirect != 0;
        NewPointer(sb, v, n, v', n', IND_SLOT);
        assert {p, n'.indirect} <= Free(sb, v) && |{p, n'.indirect}| == 2;
        Subset({p, n'.indirect}, Free(sb, v));
      } else {
        Subset({p}, Free(sb, v));
      }
    }
  }

  lemma Subset(a: set<nat>, b: set<nat>)
    requires a <= b
    ensures |a| <= |b|
  {
    assert b == a + (b - a);
  }

  /** A pointer that was not set before was taken from the free blocks. */
  lemma NewPointer(sb: Superblock, v: Vol, n: Inode, v': Vol, n': Inode, s: nat)
    requires Owns(sb, v, n) && Step(sb, v, n, v', n') && Grows(n, v.data, n', v'.data)
    requires s < SLOTS && Ptr(n, v.data, s) == 0 && Ptr(n', v'.data, s) != 0
    ensures Ptr(n', v'.data, s) in Free(sb, v)
  {
    hide Ptr;
    var p := Ptr(n', v'.data, s);
    PtrInBlocks(n', v'.data, s);
    forall t: nat | t < SLOTS && Ptr(n, v.data, t) != 0 ensures Ptr(n, v.data, t) != p {
      assert Ptr(n', v'.data, t) == Ptr(n, v.data, t);
    }
    assert p !in v.blkUsed - Blocks(n, v.data);
  }

  /** Growing a file without mapping a page takes at most the indirect block. */
  lemma OnlyIndirect(sb: Superblock, v: Vol, n: Inode, v': Vol, n': Inode)
    requires WellSized(sb, v) && WellSized(sb, v') && Owns(sb, v, n) && Step(sb, v, n, v', n')
    requires Grows(n, v.data, n', v'.data)
    requires Mapped(n', v'.data) == Mapped(n, v.data)
    ensures n'.indirect == n.indirect ==> Free(sb, v') == Free(sb, v)
    ensures n'.indirect != n.indirect ==> n.indirect == 0 && |Free(sb, v')| == |Free(sb, v)| - 1
  {
    IndPtr(n, v.data);
    IndPtr(n', v'.data);
    hide Ptr;
    var B, B' := Blocks(n, v.data), Blocks(n', v'.data);
    forall b | b in B ensures b in B' {
      var s: nat :| s < SLOTS && Ptr(n, v.data, s) == b && b != 0;
      assert Ptr(n', v'.data, s) == b;
    }
    forall b | b in B' && b != n'.indirect ensures b in B {
      var s: nat :| s < SLOTS && Ptr(n', v'.data, s) == b && b != 0;
      var lb := if s < DIRECT then s else s - 1;
      assert SlotOf(lb) == s && lb in Mapped(n', v'.data);
      assert lb in Mapped(n, v.data);
      assert Ptr(n, v.data, s) == b;
    }
    assert v'.blkUsed == (v'.blkUsed - B') + B' && v.blkUsed == (v.blkUsed - B) + B;
    if n'.indirect == n.indirect {
      assert B' == B;
      SameFree(sb, v, v');
    } else {
      NewPointer(sb, v, n, v', n', IND_SLOT);
      assert B' == B + {n'.indirect} && n'.indirect !in v.blkUsed;
      assert v'.blkUsed == v.blkUsed + {n'.indirect};
      FreeAfterAlloc(sb, v, v', OK, n'.indirect);
    }
  }

  /** Appending a record at the end of a directory without holes: when it is
      short, and when it is complete. */
  lemma AppendExact(sb: Superblock, v: Vol, n: Inode, v': Vol, n': Inode, reclen: nat, written: nat)
    requires WellSized(sb, v) && WellSized(sb, v') && 0 !in v'.data
    requires Owns(sb, v, n) && Step(sb, v, n, v', n') && Grows(n, v.data, n', v'.data) && Solid(FileOf(n, v.data))
    requires 0 < written <= reclen <= 264 && n.size + written <= MAX_SIZE
    requires Mapped(n', v'.data) == Mapped(n, v.data) + Touched(n.size, written)
    requires written < reclen ==> Stuck(sb, v', n', n.size + written)
    requires n'.indirect != n.indirect ==> (n.size + written) / 512 >= DIRECT
    ensures !NoRoom(|Free(sb, v)|, n, v.data)
    ensures written < reclen <==> CutShort(|Free(sb, v)|, n, v.data, reclen)
  {
    hide Ptr, Step, Owns, Grows, Pages, ZeroTail, Blocks, Free;
    var first, next := n.size / 512, n.size / 512 + 1;
    assert Touches(n.size, written, first) && first in Mapped(n', v'.data);
    HadRoom(sb, v, n, v', n', first);
    if written == reclen {
      if n.size % 512 + reclen > 512 {
        assert Touches(n.size, written, next) && next in Mapped(n', v'.data);
        HadRoom(sb, v, n, v', n', next);
      }
    } else {
      var pos := n.size + written;
      assert Touches(n.size, written, (pos - 1) / 512);
      assert pos / 512 !in Mapped(n', v'.data);
      assert pos == next * 512 && n.size % 512 != 0 && n.size % 512 + reclen > 512;
      assert first in Below(BlocksFor(n.size));
      assert Touched(n.size, written) <= Below(BlocksFor(n.size)) by {
        forall lb | lb in Touched(n.size, written)
          ensures lb in Below(BlocksFor(n.size))
        {
          assert Touches(n.size, written, lb);
        }
      }
      assert Mapped(n', v'.data) == Mapped(n, v.data);
      OnlyIndirect(sb, v, n, v', n');
      assert next !in Mapped(n, v.data);
    }
  }

  /** kfs_vnode_write of a record at the end of the directory. */
  method Append(k: Kfs, d: nat, rec: seq<U8>) returns (st: Status, written: nat)
    requires k.Valid() && Sound(k.sb, k.V()) && IsDirAt(k.V(), d) && Solid(FileAt(k.V(), d)) && 8 < |rec| <= 264
    modifies k.disk, k.blockBitmap
    ensures k.Valid()
    ensures
      var v, v', n := old(k.V()), k.V(), old(k.V()).inodes[d];
      && (st != OK <==> NoRoom(|Free(k.sb, v)|, n, v.data)) && (st != OK ==> written == 0)
      && (st != OK ==> st == (if n.size / 512 >= MAX_BLOCKS then EFBIG else ENOSPC))
      && (st != OK ==> if LosesIndirect(k.sb, v, n, n.size / 512) then Leaked(k.sb, v, v') else v' == v)
      && (st == OK ==> 0 < written <= |rec| && FileStep(k.sb, v, d, v') && Solid(FileAt(v', d)))
      && (st == OK && written == |rec| && Tight(n) ==> Tight(v'.inodes[d]))
      && (st == OK ==> Content(FileAt(v', d)) == Content(FileAt(v, d)) + rec[..written])
      && (st == OK ==> (written < |rec| <==> CutShort(|Free(k.sb, v)|, n, v.data, |rec|)))
  {
    hide Kfs.V, Kfs.Valid, Pages, Mapped, FileAt, FileStep, Owns, Put, Free, Solid, Content, Leaked, CutShort, NoRoom;
    hide Stuck;
    ghost var v := k.V();
    var r, n := k.ReadInode(d);
    assert r == OK && n == v.inodes[d];
    SoundOwns(k.sb, v, d);
    FileAtOf(v, d);
    var f := new OpenFile(true, false);
    f.offset := n.size;
    st, written := Write(k, f, d, rec);
    ghost var v' := k.V();
    if st == OK {
      FileAtOf(v', d);
      AppendedContent(FileAt(v, d), rec[..written], FileAt(v', d), n, v.data);
      AppendFacts(k.sb, v, d, v', |rec|, rec[..written]);
      assert v'.inodes[d].size == n.size + written by { PutSize(FileAt(v, d), rec[..written]); }
    } else {
      StuckAtEnd(k.sb, v, n);
    }
  }

  lemma PutSize(f: FileState, bytes: seq<U8>)
    requires |f.pages| == MAX_BLOCKS && bytes != []
    ensures Put(f, f.size, bytes).size == f.size + |bytes|
  {
  }

  lemma StuckAtEnd(sb: Superblock, v: Vol, n: Inode)
    requires Solid(FileOf(n, v.data)) && Stuck(sb, v, n, n.size)
    ensures NoRoom(|Free(sb, v)|, n, v.data)
  {
    hide Ptr, Pages, ZeroTail, Free;
    var lb := n.size / 512;
    assert lb < BlocksFor(n.size) <==> n.size % 512 != 0;
    assert lb in Mapped(n, v.data) <==> lb < BlocksFor(n.size);
  }

  lemma AppendedContent(f: FileState, bytes: seq<U8>, f': FileState, n: Inode, data: DataMap)
    requires Solid(f) && bytes != [] && f.size + |bytes| <= MAX_SIZE && f' == Put(f, f.size, bytes)
    ensures Solid(f') && Content(f') == Content(f) + bytes
  {
    hide ByteOf, Bytes, Patch;
    PutContent(f, f.size, bytes);
    PutSolid(f, f.size, bytes);
  }

  lemma AppendFacts(sb: Superblock, v: Vol, d: nat, v': Vol, reclen: nat, bytes: seq<U8>)
    requires Layout(sb) && WellSized(sb, v) && WellSized(sb, v') && d < |v.inodes| && Owns(sb, v, v.inodes[d])
    requires FileStep(sb, v, d, v') && Solid(FileOf(v.inodes[d], v.data))
    requires 0 < |bytes| <= reclen <= 264 && v.inodes[d].size + |bytes| <= MAX_SIZE
    requires Grows(v.inodes[d], v.data, v'.inodes[d], v'.data)
    requires FileOf(v'.inodes[d], v'.data) == Put(FileOf(v.inodes[d], v.data), v.inodes[d].size, bytes)
    requires |bytes| < reclen ==> Stuck(sb, v', v'.inodes[d], v.inodes[d].size + |bytes|)
    requires v'.inodes[d].indirect != v.inodes[d].indirect ==> (v.inodes[d].size + |bytes|) / 512 >= DIRECT
    ensures !NoRoom(|Free(sb, v)|, v.inodes[d], v.data)
    ensures |bytes| < reclen <==> CutShort(|Free(sb, v)|, v.inodes[d], v.data, reclen)
  {
    hide Step, Owns, Grows, Solid, Patch, Mapped, Pages, NoRoom, CutShort, Free, Stuck, Touched;
    var v1 := v'.(inodes := v.inodes);
    if |bytes| < reclen { StuckInodes(sb, v', v1, v'.inodes[d], v.inodes[d].size + |bytes|); }
    AppendExact(sb, v, v.inodes[d], v1, v'.inodes[d], reclen, |bytes|);
  }

  // ----------------------------------------------------------- the whole

  /** Free blocks left for the directory once the new inode has its block. */
  ghost function Left(sb: Superblock, v: Vol, isDir: bool): int
  {
    |Free(sb, v)| - (if isDir then 1 else 0)
  }

  /** No inode, or no block for the new directory, can be had. */
  ghost predicate Exhausted(sb: Superblock, v: Vol, isDir: bool)
  {
    NoInode(sb, v) || (isDir && Free(sb, v) == {})
  }

  /** What making a new entry in `d` answers. */
  ghost function NewStatus(sb: Superblock, v: Vol, d: nat, isDir: bool): Status
    requires d < |v.inodes|
  {
    if Exhausted(sb, v, isDir) then ENOSPC
    else if NoRoom(Left(sb, v, isDir), v.inodes[d], v.data) then
      (if v.inodes[d].size / 512 >= MAX_BLOCKS then EFBIG else ENOSPC)
    else OK
  }

  /** The append takes the last free block for an indirect block and fails. */
  ghost predicate LosesBlock(sb: Superblock, v: Vol, d: nat, isDir: bool)
    requires d < |v.inodes|
  {
    && !Exhausted(sb, v, isDir) && NoRoom(Left(sb, v, isDir), v.inodes[d], v.data)
    && DIRECT <= v.inodes[d].size / 512 < MAX_BLOCKS && v.inodes[d].indirect == 0 && Left(sb, v, isDir) == 1
  }

  /** Rolling back: the allocated inodes and their files are what they were. */
  ghost predicate RolledBack(v: Vol, v': Vol)
  {
    v'.inoUsed == v.inoUsed && Keeps(v, v', v.inoUsed)
  }

  function NewEntry(ino: U32, name: Name, isDir: bool): Entry
  {
    Entry(ino, if isDir then 2 else 1, name)
  }

  /** The new inode exists, and `written` bytes of its record end the directory. */
  ghost predicate Linked(sb: Superblock, v: Vol, d: nat, name: Name, isDir: bool, ino: nat, written: nat, v': Vol)
    requires ValidName(name) && d < |v.inodes|
  {
    && ino !in v.inoUsed && 1 <= ino < |v.inodes| == |v'.inodes| && ino < 0x1_0000_0000 && d < 0x1_0000_0000
    && v'.inoUsed == v.inoUsed + {ino} && Keeps(v, v', v.inoUsed - {d})
    && NodeOk(v', ino) && v'.inodes[ino].typ == (if isDir then TYPE_DIR else TYPE_FILE)
    && (isDir ==> EntriesOf(FileAt(v', ino)) == DotEntries(ino, d))
    && v'.inodes[ino].indirect == 0 && (!isDir ==> v'.inodes[ino].size == 0)
    && v'.inodes[ino].links == (if isDir then 2 else 1)
    && IsDirAt(v', d) && Solid(FileAt(v, d)) && Solid(FileAt(v', d))
    && (Tight(v.inodes[d]) && written == |Encode(NewEntry(ino, name, isDir))| ==> Tight(v'.inodes[d]))
    && 0 < written <= |Encode(NewEntry(ino, name, isDir))|
    && Content(FileAt(v', d)) == Content(FileAt(v, d)) + Encode(NewEntry(ino, name, isDir))[..written]
    && (written < |Encode(NewEntry(ino, name, isDir))| <==>
         CutShort(Left(sb, v, isDir), v.inodes[d], v.data, RecLen(name)))
  }

  /** What the allocation of the new inode leaves as it was for the directory. */
  lemma BornKeeps(sb: Superblock, v: Vol, ino: nat, isDir: bool, parent: U32, v1: Vol, d: nat, reclen: nat)
    requires FsInv(sb, v) && Born(sb, v, ino, isDir, parent, v1) && WellSized(sb, v1) && IsDirAt(v, d)
    ensures Sound(sb, v1) && Keeps(v, v1, v.inoUsed) && (NoLeak(sb, v) <==> NoLeak(sb, v1))
    ensures v1.inodes[d] == v.inodes[d] && FileAt(v1, d) == FileAt(v, d) && IsDirAt(v1, d) && DirFile(FileAt(v1, d))
    ensures NoRoom(|Free(sb, v1)|, v1.inodes[d], v1.data) == NoRoom(Left(sb, v, isDir), v.inodes[d], v.data)
    ensures CutShort(|Free(sb, v1)|, v1.inodes[d], v1.data, reclen) ==
              CutShort(Left(sb, v, isDir), v.inodes[d], v.data, reclen)
  {
    hide Sound, NoLeak, DirFile, Fine, Tree, Free, FileAt, Owns, BlocksAt;
    GrownSound(sb, v, ino, v1);
    SoundOwns(sb, v, d);
    assert NodeOk(v, d);
    FileAtOf(v, d);
    FileAtOf(v1, d);
    SameNeed(v.inodes[d], v.data, v1.data, |Free(sb, v1)|, reclen);
  }

  /** What a file still needs depends on which of its pages are mapped. */
  lemma SameNeed(n: Inode, data: DataMap, data': DataMap, free: int, reclen: nat)
    requires FileOf(n, data') == FileOf(n, data)
    ensures NoRoom(free, n, data') == NoRoom(free, n, data)
    ensures CutShort(free, n, data', reclen) == CutShort(free, n, data, reclen)
  {
    hide Ptr, Pages;
    forall lb: nat | lb < MAX_BLOCKS ensures IsMapped(n, data', lb) == IsMapped(n, data, lb) {
      assert lb in Mapped(n, data') <==> lb in Mapped(n, data);
    }
  }

  /** After the append failed, the new inode is still all it was. */
  lemma AfterFailedAppend(sb: Superblock, v1: Vol, d: nat, ino: nat, v2: Vol)
    requires Sound(sb, v1) && d < |v1.inodes| && ino in v1.inoUsed && WellSized(sb, v2)
    requires if LosesIndirect(sb, v1, v1.inodes[d], v1.inodes[d].size / 512) then Leaked(sb, v1, v2) else v2 == v1
    ensures Sound(sb, v2) && Keeps(v1, v2, v1.inoUsed) && v2.inoUsed == v1.inoUsed
    ensures BlocksAt(v2, ino) == BlocksAt(v1, ino) && v2.inodes == v1.inodes
    ensures if LosesIndirect(sb, v1, v1.inodes[d], v1.inodes[d].size / 512) then !NoLeak(sb, v2)
              else NoLeak(sb, v2) == NoLeak(sb, v1)
  {
    hide LosesIndirect;
    if LosesIndirect(sb, v1, v1.inodes[d], v1.inodes[d].size / 512) {
      LeakedSound(sb, v1, v2);
    }
    hide Sound, NoLeak, Leaked, FileAt;
  }

  /** Lines 745-842: a new inode and its directory entry, or all rolled back. */
  method CreateNew(k: Kfs, d: nat, name: Name, isDir: bool) returns (st: Status, ino: nat, written: nat)
    requires k.Valid() && FsInv(k.sb, k.V()) && IsDirAt(k.V(), d) && ValidName(name)
    requires k.sb.inodeCount <= 0x1_0000_0000
    modifies k.disk, k.blockBitmap, k.inodeBitmap
    ensures k.Valid() && Sound(k.sb, k.V())
    ensures st == NewStatus(k.sb, old(k.V()), d, isDir)
    ensures st != OK ==> RolledBack(old(k.V()), k.V()) && written == 0
    ensures st == OK ==> Linked(k.sb, old(k.V()), d, name, isDir, ino, written, k.V())
    ensures st == OK ==> forall j :: 1 <= j < ino ==> j in old(k.V()).inoUsed
    ensures NoLeak(k.sb, k.V()) <==> NoLeak(k.sb, old(k.V())) && !LosesBlock(k.sb, old(k.V()), d, isDir)
  {
    hide Kfs.V, Kfs.Valid, Owns, Free, Solid, Content, Leaked, CutShort, Sound, NoLeak, Tree, FileAt, Born, NodesOk;
    hide Keeps, Encode, NoRoom, FileStep, NewDir, Exhausted;
    ghost var v := k.V();
    written := 0;
    assert WellSized(k.sb, v) && d < |v.inodes| by { SoundOwns(k.sb, v, d); }
    st, ino := NewInode(k, isDir, d);
    ghost var v1 := k.V();
    if st != OK {
      SameBlocksSound(k.sb, v, v1);
      assert Exhausted(k.sb, v, isDir) by { ExhaustedDef(k.sb, v, isDir); }
      return;
    }
    assert !Exhausted(k.sb, v, isDir) by { ExhaustedDef(k.sb, v, isDir); }
    ghost var parent: U32 := if isDir then d else 0;
    BornFacts(k.sb, v, ino, isDir, parent, v1);
    BornKeeps(k.sb, v, ino, isDir, parent, v1, d, RecLen(name));
    var rec := Encode(NewEntry(ino, name, isDir));
    st, written := Append(k, d, rec);
    ghost var v2 := k.V();
    if st != OK {
      AfterFailedAppend(k.sb, v1, d, ino, v2);
      DropInode(k, ino, isDir);
      ShrunkSound(k.sb, v2, ino, k.V());
      KeepsTrans(v, v1, v2, v.inoUsed, v1.inoUsed);
      KeepsTrans(v, v2, k.V(), v.inoUsed * v1.inoUsed, k.V().inoUsed);
      assert v.inoUsed * v1.inoUsed * k.V().inoUsed == v.inoUsed;
      return;
    }
    FileStepKeeps(k.sb, v1, d, v2);
    FileStepTypes(k.sb, v1, d, v2);
    KeepsTrans(v, v1, v2, v.inoUsed, v1.inoUsed - {d});
    assert v.inoUsed * (v1.inoUsed - {d}) == v.inoUsed - {d};
    KeptAt(v1, v2, v1.inoUsed - {d}, ino);
  }

  lemma ExhaustedDef(sb: Superblock, v: Vol, isDir: bool)
    ensures Exhausted(sb, v, isDir) == (NoInode(sb, v) || (isDir && Free(sb, v) == {}))
  {
  }

  lemma FileStepTypes(sb: Superblock, v: Vol, d: nat, v': Vol)
    requires FileStep(sb, v, d, v')
    ensures d < |v.inodes| == |v'.inodes| && v'.inodes[d].typ == v.inodes[d].typ
  {
  }

  lemma KeptAt(v: Vol, v': Vol, S: set<nat>, i: nat)
    requires Keeps(v, v', S) && i in S && i < |v.inodes| && NodeOk(v, i)
    ensures v'.inodes[i] == v.inodes[i] && FileAt(v', i) == FileAt(v, i) && NodeOk(v', i)
  {
    KeptNode(v, v', S, i);
  }

  /** Only records of unused inodes differ. */
  lemma SameBlocksSound(sb: Superblock, v: Vol, v': Vol)
    requires Sound(sb, v) && WellSized(sb, v') && v' == v.(inodes := v'.inodes) && Keeps(v, v', v.inoUsed)
    ensures Sound(sb, v') && (NoLeak(sb, v) <==> NoLeak(sb, v'))
  {
    hide Blocks, Owns, Pages, Mapped;
    forall i | i in v.inoUsed
      ensures BlocksAt(v', i) == BlocksAt(v, i) && (Owns(sb, v', v'.inodes[i]) <==> Owns(sb, v, v.inodes[i]))
    {
      SameOwns(sb, v, v', v.inodes[i]);
    }
    if NoLeak(sb, v) {
      forall b | b in v'.blkUsed && b >= sb.dataStart ensures Owned(v', b) {
        assert Owned(v, b);
        var i :| i in v.inoUsed && i < |v.inodes| && b in BlocksAt(v, i);
        assert b in BlocksAt(v', i);
      }
    }
    if NoLeak(sb, v') {
      forall b | b in v.blkUsed && b >= sb.dataStart ensures Owned(v, b) {
        assert Owned(v', b);
        var i :| i in v'.inoUsed && i < |v'.inodes| && b in BlocksAt(v', i);
        assert b in BlocksAt(v, i);
      }
    }
  }

  lemma SameOwns(sb: Superblock, v: Vol, v': Vol, n: Inode)
    requires v'.blkUsed == v.blkUsed && v'.data == v.data
    ensures Owns(sb, v', n) <==> Owns(sb, v, n)
  {
  }

  lemma BornFacts(sb: Superblock, v: Vol, ino: nat, isDir: bool, parent: U32, v': Vol)
    requires Born(sb, v, ino, isDir, parent, v')
    ensures 1 <= ino < sb.inodeCount && ino < 0x1_0000_0000 && ino !in v.inoUsed && ino < |v.inodes| == |v'.inodes|
    ensures v'.inoUsed == v.inoUsed + {ino} && NodeOk(v', ino) && |Free(sb, v')| == Left(sb, v, isDir)
    ensures v'.inodes[ino].typ == (if isDir then TYPE_DIR else TYPE_FILE) && v'.inodes[ino].indirect == 0
    ensures !isDir ==> v'.inodes[ino].size == 0
    ensures v'.inodes[ino].links == if isDir then 2 else 1
    ensures isDir ==> EntriesOf(FileAt(v', ino)) == DotEntries(ino, parent)
    ensures if isDir then exists blk: U32 :: blk != 0 && v'.inodes[ino] == NewDir(blk) && BlocksAt(v', ino) == {blk}
            else BlocksAt(v', ino) == {}
  {
  }

  // ------------------------------------------ what the new state amounts to

  /** With its whole record written, the new inode joins the tree. */
  lemma LinkedWhole(sb: Superblock, v: Vol, d: nat, name: Name, isDir: bool, ino: nat, written: nat, v': Vol)
    requires FsInv(sb, v) && IsDirAt(v, d) && ValidName(name) && !IsDots(name) && Sound(sb, v')
    requires IndexOf(EntriesOf(FileAt(v, d)), name) == |EntriesOf(FileAt(v, d))|
    requires Linked(sb, v, d, name, isDir, ino, written, v') && written == |Encode(NewEntry(ino, name, isDir))|
    ensures FsInv(sb, v') && d in NamesOf(v).dirs && NamesOf(v') == Add(NamesOf(v), d, NewEntry(ino, name, isDir))
  {
    hide Sound, Tree, FileAt, Keeps, Encode, Parse, EncodeAll, Content, CutShort, Left, IndexOf, ValidName, IsDots;
    hide WellFormed, Add, DotEntries;
    var e := NewEntry(ino, name, isDir);
    var data, rec := Content(FileAt(v, d)), Encode(e);
    DirEntries(v, d);
    assert rec[..written] == rec;
    AppendRecord(data, e);
    assert EntriesOf(FileAt(v', d)) == EntriesOf(FileAt(v, d)) + [e];
    assert DirFile(FileAt(v', d));
    NamesAdd(v, d, e, v');
    AddTree(NamesOf(v), d, e);
  }

  lemma NamesAdd(v: Vol, d: U32, e: Entry, v': Vol)
    requires NodesOk(v) && IsDirAt(v, d) && e.ino !in v.inoUsed && (e.typ == FILE8 || e.typ == DIR8)
    requires |v.inodes| == |v'.inodes| && e.ino < |v.inodes|
    requires v'.inoUsed == v.inoUsed + {e.ino} && Keeps(v, v', v.inoUsed - {d})
    requires NodeOk(v', e.ino) && v'.inodes[e.ino].typ == (if e.typ == DIR8 then TYPE_DIR else TYPE_FILE)
    requires e.typ == DIR8 ==> EntriesOf(FileAt(v', e.ino)) == DotEntries(e.ino, d)
    requires IsDirAt(v', d) && DirFile(FileAt(v', d)) && EntriesOf(FileAt(v', d)) == EntriesOf(FileAt(v, d)) + [e]
    ensures NodesOk(v') && d in NamesOf(v).dirs && NamesOf(v') == Add(NamesOf(v), d, e)
  {
    hide FileAt, EntriesOf, DirFile, Fine;
    forall i | i in v'.inoUsed && i != d && i != e.ino ensures NodeOk(v', i) { KeptNode(v, v', v.inoUsed - {d}, i); }
    var ns, ns' := Add(NamesOf(v), d, e), NamesOf(v');
    forall x: nat ensures x in ns'.dirs <==> x in ns.dirs {
    }
    forall x: nat | x in ns.dirs ensures ns'.dirs[x] == ns.dirs[x] {
    }
    assert ns'.dirs == ns.dirs;
  }

  /** With its record cut short, the directory is no longer well formed. */
  lemma LinkedShort(sb: Superblock, v: Vol, d: nat, name: Name, isDir: bool, ino: nat, written: nat, v': Vol)
    requires FsInv(sb, v) && IsDirAt(v, d) && ValidName(name)
    requires Linked(sb, v, d, name, isDir, ino, written, v') && written < |Encode(NewEntry(ino, name, isDir))|
    ensures !WellFormed(Content(FileAt(v', d))) && !FsInv(sb, v')
  {
    hide Sound, Tree, FileAt, Keeps, Encode, Content, CutShort, Left, IndexOf, ValidName, WellFormed;
    DirEntries(v, d);
    ShortRecord(Content(FileAt(v, d)), NewEntry(ino, name, isDir), written);
    assert !NodeOk(v', d);
  }

  ghost predicate Exists(v: Vol, d: nat, name: Name)
    requires d < |v.inodes|
  {
    IndexOf(EntriesOf(FileAt(v, d)), name) < |EntriesOf(FileAt(v, d))|
  }

  /** What create answers, told from the volume before the call. */
  ghost function CreateStatus(sb: Superblock, v: Vol, d: nat, name: Name, isDir: bool): Status
    requires |v.inodes| == sb.inodeCount
  {
    if d >= sb.inodeCount then EINVAL
    else if d !in v.inoUsed then ENOENT
    else if !IsDirAt(v, d) then ENOTDIR
    else if |name| == 0 || |name| > 255 then EINVAL
    else if IsDots(name) then EEXIST
    else if Exists(v, d, name) then (if isDir then EEXIST else OK)
    else NewStatus(sb, v, d, isDir)
  }

  /** The call makes a new entry, and does not answer from an old one. */
  ghost predicate MakesNew(sb: Superblock, v: Vol, d: nat, name: Name)
    ensures MakesNew(sb, v, d, name) ==> d < |v.inodes| && ValidName(name)
  {
    d < |v.inodes| && IsDirAt(v, d) && ValidName(name) && !IsDots(name) && !Exists(v, d, name)
  }

  /** The new entry's record is cut short: nothing but the caller can tell,
      before the call, from the directory's size and the free blocks. */
  ghost predicate ShortCreate(sb: Superblock, v: Vol, d: nat, name: Name, isDir: bool)
  {
    && MakesNew(sb, v, d, name) && NewStatus(sb, v, d, isDir) == OK
    && CutShort(Left(sb, v, isDir), v.inodes[d], v.data, RecLen(name))
  }

  /** kfs_vnode_create. It fails without a trace in the namespace, or answers
      with the file that exists, or makes exactly one new inode with exactly one
      new entry; the invariant survives exactly when the record is not cut short. */
  method Create(k: Kfs, d: nat, name: Name, isDir: bool) returns (st: Status, ino: nat, written: nat)
    requires k.Valid() && FsInv(k.sb, k.V()) && NoNul(name) && k.sb.inodeCount <= 0x1_0000_0000
    modifies k.disk, k.blockBitmap, k.inodeBitmap
    ensures k.Valid() && Sound(k.sb, k.V())
    ensures st == CreateStatus(k.sb, old(k.V()), d, name, isDir)
    ensures FsInv(k.sb, k.V()) <==> !ShortCreate(k.sb, old(k.V()), d, name, isDir)
    ensures st != OK ==> RolledBack(old(k.V()), k.V()) && NamesOf(k.V()) == NamesOf(old(k.V()))
    ensures !MakesNew(k.sb, old(k.V()), d, name) ==> k.V() == old(k.V())
    ensures !MakesNew(k.sb, old(k.V()), d, name) || st != OK ==> written == 0
    ensures st == OK && !MakesNew(k.sb, old(k.V()), d, name) ==>
      var es := EntriesOf(FileAt(old(k.V()), d));
      IndexOf(es, name) < |es| && ino == es[IndexOf(es, name)].ino
    ensures st == OK && MakesNew(k.sb, old(k.V()), d, name) ==>
      && Linked(k.sb, old(k.V()), d, name, isDir, ino, written, k.V())
      && (forall j :: 1 <= j < ino ==> j in old(k.V()).inoUsed)
      && (!ShortCreate(k.sb, old(k.V()), d, name, isDir) ==>
            d in NamesOf(old(k.V())).dirs && NamesOf(k.V()) == Add(NamesOf(old(k.V())), d, NewEntry(ino, name, isDir)))
    ensures NoLeak(k.sb, k.V()) <==>
      NoLeak(k.sb, old(k.V())) && !(MakesNew(k.sb, old(k.V()), d, name) && LosesBlock(k.sb, old(k.V()), d, isDir))
  {
    hide Kfs.V, Kfs.Valid, EntriesOf, IndexOf, Owns, FileAt, Sound, NoLeak, Tree, NodesOk, NamesOf, NewStatus, CutShort;
    hide LosesBlock, NoNul, Keeps, RecLen, Linked, Add;
    ino, written := 0, 0;
    ghost var v := k.V();
    KeepsRefl(v);
    var n;
    st, n := k.ReadInode(d);
    if st != OK { return; }
    if n.typ != TYPE_DIR { return ENOTDIR, 0, 0; }
    if |name| == 0 || |name| > 255 { return EINVAL, 0, 0; }
    if name == [46] || name == [46, 46] { return EEXIST, 0, 0; }
    var existing, isDirE;
    st, existing, isDirE := Lookup(k, d, name);
    LookupFinds(EntriesOf(FileAt(v, d)), d, name);
    if st == OK {
      if isDir { return EEXIST, 0, 0; }
      return OK, existing, 0;
    }
    st, ino, written := CreateNew(k, d, name, isDir);
    if st != OK {
      RolledBackInv(k.sb, v, k.V());
    } else {
      CreatedInv(k.sb, v, d, name, isDir, ino, written, k.V());
    }
  }

  lemma KeepsRefl(v: Vol)
    ensures Keeps(v, v, v.inoUsed)
  {
  }

  lemma LookupFinds(es: seq<Entry>, d: nat, name: Name)
    requires !IsDots(name)
    ensures (LookupSpec(es, d, name).0 == OK) == (IndexOf(es, name) < |es|)
    ensures LookupSpec(es, d, name).0 == OK ==> LookupSpec(es, d, name).1 == es[IndexOf(es, name)].ino
  {
  }

  lemma RolledBackInv(sb: Superblock, v: Vol, v': Vol)
    requires FsInv(sb, v) && RolledBack(v, v') && Sound(sb, v')
    ensures FsInv(sb, v') && NamesOf(v') == NamesOf(v)
  {
    hide Sound, Tree, NamesOf, NodesOk, Keeps;
    SameNames(v, v');
  }

  lemma CreatedInv(sb: Superblock, v: Vol, d: nat, name: Name, isDir: bool, ino: nat, written: nat, v': Vol)
    requires FsInv(sb, v) && MakesNew(sb, v, d, name) && Sound(sb, v')
    requires Linked(sb, v, d, name, isDir, ino, written, v')
    ensures FsInv(sb, v') <==> !CutShort(Left(sb, v, isDir), v.inodes[d], v.data, RecLen(name))
    ensures FsInv(sb, v') ==> d in NamesOf(v).dirs && NamesOf(v') == Add(NamesOf(v), d, NewEntry(ino, name, isDir))
  {
    hide Sound, Tree, FileAt, Keeps, Encode, EntriesOf, Content, CutShort, IndexOf, ValidName, NamesOf, NodesOk, Add;
    hide DotEntries, Solid;
    if written == |Encode(NewEntry(ino, name, isDir))| {
      LinkedWhole(sb, v, d, name, isDir, ino, written, v');
    } else {
      LinkedShort(sb, v, d, name, isDir, ino, written, v');
    }
  }
}
