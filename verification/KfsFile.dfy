/** Reading, writing and truncating files (kernel/fs/kfs.c:162-271, 379-484). */
module KfsFile {
  import opened Bits
  import opened KfsFormat
  import opened KfsDevice
  import opened KfsPages

  /** The unmarked blocks of the data area. */
  ghost function Free(sb: Superblock, v: Vol): (r: set<nat>)
  {
    set b: nat | sb.dataStart <= b < sb.total && b !in v.blkUsed
  }

  lemma SameFree(sb: Superblock, v: Vol, v': Vol)
    requires v'.blkUsed == v.blkUsed
    ensures Free(sb, v') == Free(sb, v)
  {
  }

  /** How many fresh blocks it takes to map logical block `lb`. */
  function Need(n: Inode, data: DataMap, lb: nat): nat
    requires lb < MAX_BLOCKS
  {
    if IsMapped(n, data, lb) then 0 else if lb >= DIRECT && n.indirect == 0 then 2 else 1
  }

  /** Mapping `lb` stops between its two allocations: the indirect block is
      taken, and no block is left for the data. */
  ghost predicate LosesIndirect(sb: Superblock, v: Vol, n: Inode, lb: nat)
  {
    DIRECT <= lb < MAX_BLOCKS && n.indirect == 0 && |Free(sb, v)| == 1
  }

  lemma StepOwns(sb: Superblock, v: Vol, n: Inode, v': Vol, n': Inode)
    requires Step(sb, v, n, v', n')
    ensures Owns(sb, v', n')
  {
  }

  lemma SetDirect(sb: Superblock, v: Vol, n: Inode, lb: nat, blk: nat)
    requires Layout(sb) && WellSized(sb, v) && Owns(sb, v, n)
    requires lb < DIRECT && n.direct[lb] == 0 && blk < 0x1_0000_0000
    requires sb.dataStart <= blk < sb.total && blk !in v.blkUsed
    ensures var v' := v.(blkUsed := v.blkUsed + {blk}, data := v.data[blk := ZeroBlock()]);
            var n' := n.(direct := n.direct[lb := blk]);
            && Step(sb, v, n, v', n') && Grows(n, v.data, n', v'.data)
            && Pages(n', v'.data) == Pages(n, v.data)
            && Mapped(n', v'.data) == Mapped(n, v.data) + {lb}
  {
    hide WordsOf;
    var v' := v.(blkUsed := v.blkUsed + {blk}, data := v.data[blk := ZeroBlock()]);
    var n' := n.(direct := n.direct[lb := blk]);
    if n.indirect != 0 { PtrInBlocks(n, v.data, IND_SLOT); }
    AddPointer(sb, v, n, v', n', lb, blk);
  }

  lemma SetIndirect(sb: Superblock, v: Vol, n: Inode, blk: nat)
    requires Layout(sb) && WellSized(sb, v) && Owns(sb, v, n)
    requires n.indirect == 0 && blk < 0x1_0000_0000
    requires sb.dataStart <= blk < sb.total && blk !in v.blkUsed
    ensures var v' := v.(blkUsed := v.blkUsed + {blk}, data := v.data[blk := ZeroBlock()]);
            var n' := n.(indirect := blk);
            && Step(sb, v, n, v', n') && Grows(n, v.data, n', v'.data)
            && Pages(n', v'.data) == Pages(n, v.data)
            && Mapped(n', v'.data) == Mapped(n, v.data)
            && forall s: nat :: 11 <= s < SLOTS ==> Ptr(n', v'.data, s) == 0
  {
    var v' := v.(blkUsed := v.blkUsed + {blk}, data := v.data[blk := ZeroBlock()]);
    var n' := n.(indirect := blk);
    ZeroWords();
    hide WordsOf;
    AddPointer(sb, v, n, v', n', IND_SLOT, blk);
  }

  lemma SetEntry(sb: Superblock, v: Vol, n: Inode, j: nat, blk: nat)
    requires Layout(sb) && WellSized(sb, v) && Owns(sb, v, n)
    requires n.indirect != 0 && j < 128 && Ptr(n, v.data, j + 11) == 0 && blk < 0x1_0000_0000
    requires sb.dataStart <= blk < sb.total && blk !in v.blkUsed
    requires n.indirect in v.data && n.indirect in v.blkUsed
    ensures var d1 := v.data[blk := ZeroBlock()];
            var v' := v.(blkUsed := v.blkUsed + {blk},
                         data := d1[n.indirect := Pack(WordsOf(d1[n.indirect])[j := blk])]);
            && Step(sb, v, n, v', n) && Grows(n, v.data, n, v'.data)
            && Pages(n, v'.data) == Pages(n, v.data)
            && Mapped(n, v'.data) == Mapped(n, v.data) + {j + 10}
            && Ptr(n, v'.data, j + 11) == blk
  {
    var d1 := v.data[blk := ZeroBlock()];
    var w := WordsOf(d1[n.indirect])[j := blk];
    var v' := v.(blkUsed := v.blkUsed + {blk}, data := d1[n.indirect := Pack(w)]);
    WordsOfPack(w);
    hide WordsOf, Pack;
    AddPointer(sb, v, n, v', n, j + 11, blk);
  }

  /** What mapping logical block `lb` does. Whatever happens, the file's pages
      are unchanged and the work is a `Step`; it fails for an index past the
      indirect block or when too few blocks are free, and then changes nothing
      unless it stopped after taking the indirect block. */
  ghost predicate Maps(sb: Superblock, v: Vol, n: Inode, lb: nat, st: Status, v': Vol, n': Inode, phys: nat)
  {
    && Step(sb, v, n, v', n') && Grows(n, v.data, n', v'.data)
    && n' == n.(direct := n'.direct, indirect := n'.indirect)
    && (n'.indirect != n.indirect ==> lb >= DIRECT)
    && Pages(n', v'.data) == Pages(n, v.data)
    && st == (if lb >= MAX_BLOCKS then EFBIG else if |Free(sb, v)| < Need(n, v.data, lb) then ENOSPC else OK)
    && (st == OK ==> phys == Ptr(n', v'.data, SlotOf(lb)) && phys != 0)
    && (st == OK ==> Mapped(n', v'.data) == Mapped(n, v.data) + {lb})
    && (st != OK ==> Mapped(n', v'.data) == Mapped(n, v.data))
    && (st != OK && !LosesIndirect(sb, v, n, lb) ==> n' == n && v' == v)
    && (st != OK && LosesIndirect(sb, v, n, lb) ==> n'.indirect != 0 && v'.blkUsed == v.blkUsed + Free(sb, v))
    && (st != OK ==> forall b :: b in v.blkUsed && b in v.data ==> b in v'.data && v'.data[b] == v.data[b])
  }

  /** The direct branch of kfs_map_or_alloc_block. */
  method MapDirect(k: Kfs, n: Inode, lb: nat) returns (st: Status, n': Inode, phys: nat)
    requires k.Valid() && Owns(k.sb, k.V(), n) && lb < DIRECT
    modifies k.disk, k.blockBitmap
    ensures k.Valid() && Maps(k.sb, old(k.V()), n, lb, st, k.V(), n', phys)
  {
    hide Kfs.V, Kfs.Valid, WordsOf, Pack, Pages, Step, Owns, Blocks, Distinct;
    StepRefl(k.sb, k.V(), n);
    n' := n;
    if n.direct[lb] == 0 {
      var err, blk := k.AllocBlock();
      FreeAfterAlloc(k.sb, old(k.V()), k.V(), err, blk);
      if err != OK { return err, n, 0; }
      SetDirect(k.sb, old(k.V()), n, lb, blk);
      n' := n.(direct := n.direct[lb := blk]);
    }
    return OK, n', n'.direct[lb];
  }

  /** The second half of the indirect branch: the indirect block exists. */
  method MapEntry(k: Kfs, n: Inode, off: nat) returns (st: Status, phys: nat)
    requires k.Valid() && Owns(k.sb, k.V(), n) && off < 128 && n.indirect != 0
    modifies k.disk, k.blockBitmap
    ensures k.Valid() && Maps(k.sb, old(k.V()), n, off + 10, st, k.V(), n, phys)
  {
    hide Kfs.V, Kfs.Valid, WordsOf, Pack, Pages, Step, Owns, Blocks, Distinct;
    ghost var v := k.V();
    StepRefl(k.sb, v, n);
    OwnedPtr(k.sb, v, n, IND_SLOT);
    var buf := k.ReadBlock(n.indirect);
    var ind := WordsOf(buf);
    if ind[off] == 0 {
      var err, blk := k.AllocBlock();
      FreeAfterAlloc(k.sb, v, k.V(), err, blk);
      if err != OK { return err, 0; }
      SetEntry(k.sb, v, n, off, blk);
      ind := ind[off := blk];
      k.WriteBlock(n.indirect, Pack(ind));
    }
    return OK, ind[off];
  }

  /** Without an indirect block, an indirect page is unmapped and needs two blocks. */
  lemma NeedTwo(n: Inode, data: DataMap, lb: nat)
    requires n.indirect == 0 && 0 !in data && DIRECT <= lb < MAX_BLOCKS
    ensures Need(n, data, lb) == 2 && !IsMapped(n, data, lb)
  {
  }

  /** With a fresh indirect block, an indirect page needs one block more. */
  lemma NeedOne(n: Inode, data: DataMap, lb: nat)
    requires n.indirect != 0 && DIRECT <= lb < MAX_BLOCKS && Ptr(n, data, lb + 1) == 0
    ensures Need(n, data, lb) == 1
  {
  }

  /** Taking the indirect block first and then mapping the entry is mapping `lb`. */
  lemma MapsThrough(sb: Superblock, v: Vol, n: Inode, lb: nat, blk: nat, v1: Vol, n1: Inode, st: Status, v2: Vol,
                    phys: nat)
    requires Layout(sb) && WellSized(sb, v) && n.indirect == 0 && n1 == n.(indirect := n1.indirect)
    requires n1.indirect == blk != 0
    requires DIRECT <= lb < MAX_BLOCKS
    requires Step(sb, v, n, v1, n1) && Grows(n, v.data, n1, v1.data) && Pages(n1, v1.data) == Pages(n, v.data)
    requires Mapped(n1, v1.data) == Mapped(n, v.data)
    requires Ptr(n1, v1.data, lb + 1) == 0
    requires blk in Free(sb, v) && v1.blkUsed == v.blkUsed + {blk} && |Free(sb, v1)| == |Free(sb, v)| - 1
    requires |Free(sb, v)| == 1 ==> Free(sb, v) == {blk}
    requires forall b :: b in v.blkUsed && b in v.data ==> b in v1.data && v1.data[b] == v.data[b]
    requires Maps(sb, v1, n1, lb, st, v2, n1, phys)
    ensures Maps(sb, v, n, lb, st, v2, n1, phys)
  {
    hide Step, Grows, Pages, Mapped, Ptr, Free, Need;
    NeedTwo(n, v.data, lb);
    NeedOne(n1, v1.data, lb);
    StepTrans(sb, v, n, v1, n1, v2, n1);
    GrowsTrans(n, v.data, n1, v1.data, n1, v2.data);
  }

  /** kfs_map_or_alloc_block. */
  method MapOrAllocBlock(k: Kfs, n: Inode, lb: nat) returns (st: Status, n': Inode, phys: nat)
    requires k.Valid() && Owns(k.sb, k.V(), n)
    modifies k.disk, k.blockBitmap
    ensures k.Valid() && Maps(k.sb, old(k.V()), n, lb, st, k.V(), n', phys)
  {
    hide Kfs.V, Kfs.Valid, WordsOf, Pack, Pages, Step, Owns, Blocks, Distinct, Mapped, Free, Grows, Ptr, Maps;
    if lb < DIRECT {
      st, n', phys := MapDirect(k, n, lb);
      return;
    }
    ghost var v := k.V();
    if lb - 10 >= 128 {
      NotMapped(k.sb, v, n, lb, EFBIG);
      return EFBIG, n, 0;
    }
    if n.indirect != 0 {
      st, phys := MapEntry(k, n, lb - 10);
      n' := n;
      return;
    }
    var err, blk := k.AllocBlock();
    FreeAfterAlloc(k.sb, v, k.V(), err, blk);
    if err != OK {
      NeedTwo(n, v.data, lb);
      NotMapped(k.sb, v, n, lb, err);
      return err, n, 0;
    }
    ghost var v1 := k.V();
    SetIndirect(k.sb, v, n, blk);
    n' := n.(indirect := blk);
    StepOwns(k.sb, v, n, v1, n');
    st, phys := MapEntry(k, n', lb - 10);
    MapsThrough(k.sb, v, n, lb, blk, v1, n', st, k.V(), phys);
  }

  /** Giving up before anything changed. */
  lemma NotMapped(sb: Superblock, v: Vol, n: Inode, lb: nat, st: Status)
    requires Owns(sb, v, n)
    requires if lb >= MAX_BLOCKS then st == EFBIG else st == ENOSPC && |Free(sb, v)| == 0 < Need(n, v.data, lb)
    ensures Maps(sb, v, n, lb, st, v, n, 0)
  {
    hide Step, Pages, Mapped, Ptr, Free, Need;
    StepRefl(sb, v, n);
    assert Grows(n, v.data, n, v.data);
  }

  /** An allocation succeeds exactly when some block is free, and takes one. */
  lemma FreeAfterAlloc(sb: Superblock, v: Vol, v': Vol, err: Status, blk: nat)
    requires err == OK || err == ENOSPC
    requires err == ENOSPC ==> v' == v && forall j :: sb.dataStart <= j < sb.total ==> j in v.blkUsed
    requires err == OK ==> sb.dataStart <= blk < sb.total && blk !in v.blkUsed && v'.blkUsed == v.blkUsed + {blk}
    ensures err == ENOSPC <==> |Free(sb, v)| == 0
    ensures err == OK ==>
              blk in Free(sb, v) && Free(sb, v') == Free(sb, v) - {blk} && |Free(sb, v')| == |Free(sb, v)| - 1
    ensures err == OK && |Free(sb, v)| == 1 ==> Free(sb, v) == {blk}
  {
    if err == OK {
      assert blk in Free(sb, v);
      assert Free(sb, v') == Free(sb, v) - {blk};
      if |Free(sb, v)| == 1 { assert |Free(sb, v) - {blk}| == 0; assert Free(sb, v) == {blk}; }
    } else {
      assert Free(sb, v) == {};
    }
  }

  /** One turn of the write loop: map the block, read it, patch it, write it
      back, and grow the size. */
  method WriteChunk(k: Kfs, n: Inode, off: nat, bytes: seq<U8>) returns (st: Status, n': Inode)
    requires k.Valid() && Owns(k.sb, k.V(), n)
    requires bytes != [] && off % 512 + |bytes| <= 512
    modifies k.disk, k.blockBitmap
    ensures k.Valid() && Step(k.sb, old(k.V()), n, k.V(), n') && Grows(n, old(k.V()).data, n', k.V().data)
    ensures st == OK ==>
              off + |bytes| <= MAX_SIZE && FileOf(n', k.V().data) == Put(FileOf(n, old(k.V()).data), off, bytes)
    ensures st == OK ==> n' == n.(direct := n'.direct, indirect := n'.indirect, size := n'.size)
    ensures n'.indirect != n.indirect ==> off / 512 >= DIRECT
    ensures st != OK ==> Maps(k.sb, old(k.V()), n, off / 512, st, k.V(), n', 0)
  {
    hide Kfs.V, Kfs.Valid, Pages, Step, Owns, Blocks, Distinct, Ptr, Patch, Mapped, Grows;
    var phys;
    st, n', phys := MapOrAllocBlock(k, n, off / 512);
    if st != OK { return; }
    ghost var v1 := k.V();
    StepOwns(k.sb, old(k.V()), n, v1, n');
    OwnedPtr(k.sb, v1, n', SlotOf(off / 512));
    var buf := k.ReadBlock(phys);
    var o := off % 512;
    buf := buf[..o] + bytes + buf[o + |bytes|..];
    StorePage(k.sb, v1, n', off / 512, buf);
    PutInPage(FileOf(n, old(k.V()).data), off, bytes);
    PageAt(n', v1.data, off / 512);
    k.WriteBlock(phys, buf);
    StepTrans(k.sb, old(k.V()), n, v1, n', k.V(), n');
    GrowsTrans(n, old(k.V()).data, n', v1.data, n', k.V().data);
    if off + |bytes| > n'.size {
      ghost var n1 := n';
      SizeOnly(k.sb, k.V(), n', off + |bytes|);
      n' := n'.(size := off + |bytes|);
      StepOwns(k.sb, old(k.V()), n, k.V(), n1);
      StepTrans(k.sb, old(k.V()), n, k.V(), n1, k.V(), n');
      GrowsTrans(n, old(k.V()).data, n1, k.V().data, n', k.V().data);
    }
  }

  lemma PageAt(n: Inode, data: DataMap, lb: nat)
    requires lb < MAX_BLOCKS && IsMapped(n, data, lb) && Ptr(n, data, SlotOf(lb)) in data
    ensures Pages(n, data)[lb] == data[Ptr(n, data, SlotOf(lb))]
  {
    hide Ptr;
  }

  // ------------------------------------------------------------- writing

  /** An open file: the position and the flags that the operations read. */
  class OpenFile {
    var offset: nat
    const writable: bool // O_WRONLY or O_RDWR
    const append: bool   // O_APPEND

    constructor (writable: bool, append: bool)
      ensures offset == 0 && this.writable == writable && this.append == append
    {
      offset := 0;
      this.writable := writable;
      this.append := append;
    }
  }

  /** Block indices are computed in 32 bits; positions below this are exact. */
  const OFFSET_LIMIT: nat := 0x200_0000_0000

  /** The volume with inode `ino` replaced. */
  function WithInode(v: Vol, ino: nat, n: Inode): Vol
    requires ino < |v.inodes|
  {
    v.(inodes := v.inodes[ino := n])
  }

  /** `v'` follows `v` by work on the file `ino` alone: a `Step` whose new inode
      has been stored, with the type kept. */
  ghost predicate FileStep(sb: Superblock, v: Vol, ino: nat, v': Vol)
  {
    && ino < |v.inodes| == |v'.inodes|
    && v'.inodes == v.inodes[ino := v'.inodes[ino]]
    && v'.inodes[ino].typ == v.inodes[ino].typ
    && Step(sb, v, v.inodes[ino], v'.(inodes := v.inodes), v'.inodes[ino])
  }

  /** No block can be had for byte `pos` of the file. */
  ghost predicate Stuck(sb: Superblock, v: Vol, n: Inode, pos: nat)
  {
    pos / 512 >= MAX_BLOCKS || |Free(sb, v)| < Need(n, v.data, pos / 512)
  }

  /** A failed write lost the block it had taken for the indirect block. */
  ghost predicate Leaked(sb: Superblock, v: Vol, v': Vol)
  {
    && v'.inodes == v.inodes && v'.inoUsed == v.inoUsed
    && |Free(sb, v)| == 1 && v'.blkUsed == v.blkUsed + Free(sb, v)
    && forall b :: b in v.blkUsed && b in v.data ==> b in v'.data && v'.data[b] == v.data[b]
  }

  /** The loop of kfs_vnode_write, on the in-memory inode. */
  method WriteLoop(k: Kfs, n: Inode, off: nat, src: seq<U8>) returns (st: Status, n': Inode, written: nat, dirty: bool)
    requires k.Valid() && Owns(k.sb, k.V(), n) && src != []
    modifies k.disk, k.blockBitmap
    ensures k.Valid() && written <= |src|
    ensures written > 0 ==> Step(k.sb, old(k.V()), n, k.V(), n') && off + written <= MAX_SIZE
                            && Grows(n, old(k.V()).data, n', k.V().data)
                            && (n'.indirect != n.indirect ==> (off + written) / 512 >= DIRECT)
                            && (n'.indirect != n.indirect && written == |src| ==> (off + written - 1) / 512 >= DIRECT)
                            && FileOf(n', k.V().data) == Put(FileOf(n, old(k.V()).data), off, src[..written])
                            && n' == n.(direct := n'.direct, indirect := n'.indirect, size := n'.size)
                            && (written < |src| ==> Stuck(k.sb, k.V(), n', off + written))
    ensures !dirty ==> n' == n
    ensures st == OK <==> written > 0
    ensures written == 0 ==> Maps(k.sb, old(k.V()), n, off / 512, st, k.V(), n', 0)
  {
    hide Kfs.V, Kfs.Valid, Pages, Step, Owns, Blocks, Distinct, Ptr, Patch, Mapped, Put, Free, Grows, Maps, Stuck;
    n', written, dirty, st := n, 0, false, OK;
    assert Grows(n, k.V().data, n, k.V().data) by { GrowsRefl(n, k.V().data); }
    StepRefl(k.sb, k.V(), n);
    assert FileOf(n, k.V().data) == Put(FileOf(n, k.V().data), off, src[..0]) by {
      PutNothing(FileOf(n, k.V().data), off, src);
    }
    while written < |src|
      invariant k.Valid() && written <= |src|
      invariant Step(k.sb, old(k.V()), n, k.V(), n') && Grows(n, old(k.V()).data, n', k.V().data)
      invariant FileOf(n', k.V().data) == Put(FileOf(n, old(k.V()).data), off, src[..written])
      invariant n' == n.(direct := n'.direct, indirect := n'.indirect, size := n'.size)
      invariant n'.indirect != n.indirect ==> written > 0 && (off + written - 1) / 512 >= DIRECT
      invariant 0 < written < |src| ==> (off + written) % 512 == 0
      invariant written > 0 ==> off + written <= MAX_SIZE
      invariant written == 0 ==> n' == n && k.V() == old(k.V())
      invariant !dirty ==> n' == n
      invariant st == OK
    {
      var o := (off + written) % 512;
      var chunk := if 512 - o > |src| - written then |src| - written else 512 - o;
      ghost var v1, n1 := k.V(), n';
      StepOwns(k.sb, old(k.V()), n, v1, n1);
      var n2;
      st, n2 := WriteChunk(k, n', off + written, src[written..written + chunk]);
      StepTrans(k.sb, old(k.V()), n, v1, n1, k.V(), n2);
      GrowsTrans(n, old(k.V()).data, n1, v1.data, n2, k.V().data);
      dirty := dirty || n2 != n';
      n' := n2;
      if st != OK {
        if written > 0 {
          StuckAfter(k.sb, v1, n1, off + written, st, k.V(), n2);
          SameFile(k.sb, v1, n1, off + written, st, k.V(), n2);
          st := OK;
        }
        return;
      }
      PutTwice(FileOf(n, old(k.V()).data), off, src[..written], src[written..written + chunk]);
      assert src[..written] + src[written..written + chunk] == src[..written + chunk];
      written := written + chunk;
    }
  }

  lemma GrowsRefl(n: Inode, data: DataMap)
    ensures Grows(n, data, n, data)
  {
  }

  lemma PutNothing(f: FileState, off: nat, src: seq<U8>)
    requires |f.pages| == MAX_BLOCKS
    ensures Put(f, off, src[..0]) == f
  {
  }

  /** A block that could not be mapped still cannot be mapped afterwards. */
  lemma StuckAfter(sb: Superblock, v: Vol, n: Inode, pos: nat, st: Status, v': Vol, n': Inode)
    requires Maps(sb, v, n, pos / 512, st, v', n', 0) && st != OK
    ensures Stuck(sb, v', n', pos)
  {
    hide Pages, Step, Owns, Blocks, Distinct;
    if LosesIndirect(sb, v, n, pos / 512) {
      assert Free(sb, v') == {};
      var lb := pos / 512;
      assert lb !in Mapped(n, v.data);
      assert lb !in Mapped(n', v'.data);
    }
  }

  lemma SameFile(sb: Superblock, v: Vol, n: Inode, pos: nat, st: Status, v': Vol, n': Inode)
    requires Maps(sb, v, n, pos / 512, st, v', n', 0) && st != OK
    ensures FileOf(n', v'.data) == FileOf(n, v.data)
    ensures n' == n.(direct := n'.direct, indirect := n'.indirect)
  {
  }

  /** kfs_vnode_write. A write that reports `written` bytes has put exactly
      those bytes at the position (the end of the file under O_APPEND) and moved
      the position past them; it falls short only when no block can be had for
      the next byte. A write that fails changes nothing, except that it loses
      the last free block when it stops between the indirect block and the data. */
  method Write(k: Kfs, f: OpenFile, ino: nat, src: seq<U8>) returns (st: Status, written: nat)
    requires k.Valid() && f.offset < OFFSET_LIMIT
    requires ino in k.V().inoUsed ==> Owns(k.sb, k.V(), k.V().inodes[ino])
    modifies k.disk, k.blockBitmap, f`offset
    ensures k.Valid() && written <= |src|
    ensures (st == EINVAL) == (!f.writable || (src != [] && ino >= k.sb.inodeCount))
    ensures (st == ENOENT) == (f.writable && src != [] && ino < k.sb.inodeCount && ino !in old(k.V()).inoUsed)
    ensures (st == EINVAL || st == ENOENT || src == []) ==>
              k.V() == old(k.V()) && f.offset == old(f.offset) && written == 0
    ensures f.writable && src != [] && ino in old(k.V()).inoUsed ==>
      var v, n := old(k.V()), old(k.V()).inodes[ino];
      var off := if f.append then n.size else old(f.offset);
      && f.offset == off + written
      && (st == OK <==> written > 0)
      && (st == OK ==> FileStep(k.sb, v, ino, k.V()) && Grows(n, v.data, k.V().inodes[ino], k.V().data)
                       && off + written <= MAX_SIZE
                       && k.V().inodes[ino] == n.(direct := k.V().inodes[ino].direct, size := k.V().inodes[ino].size,
                                                  indirect := k.V().inodes[ino].indirect)
                       && (k.V().inodes[ino].indirect != n.indirect ==> (off + written) / 512 >= DIRECT)
                       && (k.V().inodes[ino].indirect != n.indirect && written == |src| ==>
                            (off + written - 1) / 512 >= DIRECT)
                       && FileOf(k.V().inodes[ino], k.V().data) == Put(FileOf(n, v.data), off, src[..written])
                       && (written < |src| ==> Stuck(k.sb, k.V(), k.V().inodes[ino], off + written)))
      && (st != OK ==> Stuck(k.sb, v, n, off) && st == (if off / 512 >= MAX_BLOCKS then EFBIG else ENOSPC))
      && (st != OK ==> if LosesIndirect(k.sb, v, n, off / 512) then Leaked(k.sb, v, k.V()) else k.V() == v)
  {
    hide Kfs.V, Kfs.Valid, FileOf, Step, Owns, Put, Grows, Maps, Stuck, Free, LosesIndirect, Leaked;
    written := 0;
    if !f.writable { return EINVAL, 0; }
    if |src| == 0 { return OK, 0; }
    var n;
    st, n := k.ReadInode(ino);
    if st != OK { return; }
    if f.append { f.offset := n.size; }
    var off := f.offset;
    var n', dirty;
    st, n', written, dirty := WriteLoop(k, n, off, src);
    if st != OK {
      FailedWrite(k.sb, old(k.V()), n, off, st, k.V(), n');
      return;
    }
    f.offset := off + written;
    ghost var v1 := k.V();
    if dirty {
      var r := k.WriteInode(ino, n');
    }
    assert k.V() == WithInode(v1, ino, n') by { StepInodes(k.sb, old(k.V()), n, v1, n'); }
    assert FileStep(k.sb, old(k.V()), ino, k.V()) by {
      StepInodes(k.sb, old(k.V()), n, v1, n');
      assert k.V().(inodes := v1.inodes) == v1;
    }
    if written < |src| { StuckInodes(k.sb, v1, k.V(), n', off + written); }
  }

  /** What a write that could not map its first block leaves behind. */
  lemma FailedWrite(sb: Superblock, v: Vol, n: Inode, off: nat, st: Status, v': Vol, n': Inode)
    requires Maps(sb, v, n, off / 512, st, v', n', 0) && st != OK
    ensures Stuck(sb, v, n, off) && st == (if off / 512 >= MAX_BLOCKS then EFBIG else ENOSPC)
    ensures if LosesIndirect(sb, v, n, off / 512) then Leaked(sb, v, v') else v' == v
  {
    hide Pages, Mapped, Grows, Owns, Blocks, Free, Need;
  }

  lemma StuckInodes(sb: Superblock, v: Vol, v': Vol, n: Inode, pos: nat)
    requires v'.blkUsed == v.blkUsed && v'.data == v.data
    ensures Stuck(sb, v', n, pos) == Stuck(sb, v, n, pos)
  {
  }

  lemma StepInodes(sb: Superblock, v: Vol, n: Inode, v': Vol, n': Inode)
    requires Step(sb, v, n, v', n')
    ensures v'.inodes == v.inodes && v'.inoUsed == v.inoUsed
  {
  }

  // ------------------------------------------------------------- reading

  /** kfs_map_block. */
  method MapBlock(k: Kfs, n: Inode, lb: nat) returns (st: Status, phys: nat)
    requires k.Valid() && Owns(k.sb, k.V(), n)
    ensures lb < MAX_BLOCKS ==> st == if IsMapped(n, k.V().data, lb) then OK else ENOENT
    ensures lb >= MAX_BLOCKS ==> st == if n.indirect == 0 then ENOENT else EINVAL
    ensures st == OK ==> phys == Ptr(n, k.V().data, SlotOf(lb))
  {
    hide Kfs.V, Kfs.Valid, WordsOf, Owns;
    if lb < DIRECT {
      phys := n.direct[lb];
      return if phys == 0 then ENOENT else OK, phys;
    }
    if n.indirect == 0 { return ENOENT, 0; }
    if lb - 10 >= 128 { return EINVAL, 0; }
    OwnedPtr(k.sb, k.V(), n, IND_SLOT);
    var buf := k.ReadBlock(n.indirect);
    phys := WordsOf(buf)[lb - 10];
    return if phys == 0 then ENOENT else OK, phys;
  }

  /** Bytes `off..off + count` of the pages. */
  function Slice(pages: seq<Block>, off: nat, count: nat): (r: seq<U8>)
    requires |pages| == MAX_BLOCKS && off + count <= MAX_SIZE
    ensures |r| == count
  {
    Bytes(pages, off + count)[off..]
  }

  lemma SliceChunk(pages: seq<Block>, off: nat, count: nat, chunk: nat)
    requires |pages| == MAX_BLOCKS && off + count + chunk <= MAX_SIZE
    requires (off + count) % 512 + chunk <= 512 && chunk > 0
    ensures var o := (off + count) % 512;
            Slice(pages, off, count + chunk) == Slice(pages, off, count) + pages[(off + count) / 512][o..o + chunk]
  {
    var o := (off + count) % 512;
    var l, r := Slice(pages, off, count + chunk), Slice(pages, off, count) + pages[(off + count) / 512][o..o + chunk];
    forall i | 0 <= i < |l| ensures l[i] == r[i] {
      assert l[i] == ByteOf(pages, off + i);
      if i >= count {
        assert (off + i) / 512 == (off + count) / 512 && (off + i) % 512 == o + (i - count);
      } else {
        assert Slice(pages, off, count)[i] == ByteOf(pages, off + i);
      }
    }
  }

  /** How many bytes a read asks for once it is cut at the end of the file. */
  function ToRead(size: nat, off: nat, count: nat): nat
  {
    if off >= size then 0 else if off + count > size then size - off else count
  }

  /** The loop of kfs_vnode_read. */
  method ReadLoop(k: Kfs, n: Inode, off: nat, want: nat) returns (st: Status, bytes: seq<U8>)
    requires k.Valid() && Owns(k.sb, k.V(), n) && 0 < want && off + want <= MAX_SIZE
    ensures |bytes| <= want && bytes == Slice(Pages(n, k.V().data), off, |bytes|)
    ensures st == OK <==> |bytes| == want
    ensures st == OK <==> Touched(off, want) <= Mapped(n, k.V().data)
    ensures st != OK ==> st == ENOENT && (off + |bytes|) / 512 !in Mapped(n, k.V().data)
  {
    hide Kfs.V, Kfs.Valid, Owns, Ptr, Pages, Slice, Touches;
    st, bytes := OK, [];
    assert bytes == Slice(Pages(n, k.V().data), off, 0) by { NoSlice(Pages(n, k.V().data), off); }
    while |bytes| < want
      invariant |bytes| <= want
      invariant bytes == Slice(Pages(n, k.V().data), off, |bytes|)
      invariant |bytes| > 0 ==> forall lb: nat :: Touches(off, |bytes|, lb) ==> lb in Mapped(n, k.V().data)
      invariant 0 < |bytes| < want ==> (off + |bytes|) % 512 == 0
      invariant st == OK
      decreases want - |bytes|
    {
      var lb := (off + |bytes|) / 512;
      var o := (off + |bytes|) % 512;
      var phys;
      st, phys := MapBlock(k, n, lb);
      if st != OK {
        TouchesChunk(off, |bytes|, want - |bytes|, lb);
        assert lb in Touched(off, want);
        assert lb !in Mapped(n, k.V().data);
        return;
      }
      OwnedPtr(k.sb, k.V(), n, SlotOf(lb));
      var buf := k.ReadBlock(phys);
      var chunk := if 512 - o > want - |bytes| then want - |bytes| else 512 - o;
      forall l: nat | Touches(off, |bytes| + chunk, l) ensures l in Mapped(n, k.V().data) {
        TouchesOneMore(off, |bytes|, chunk, l);
      }
      PageAt(n, k.V().data, lb);
      SliceChunk(Pages(n, k.V().data), off, |bytes|, chunk);
      bytes := bytes + buf[o..o + chunk];
    }
  }

  lemma TouchesChunk(off: nat, got: nat, more: nat, lb: nat)
    requires more > 0 && lb == (off + got) / 512
    ensures Touches(off, got + more, lb) && lb <= (off + (got + more) - 1) / 512
  {
  }

  /** A chunk within one block touches that block only. */
  lemma TouchesOneMore(off: nat, got: nat, chunk: nat, l: nat)
    requires chunk > 0 && (off + got) % 512 + chunk <= 512 && Touches(off, got + chunk, l)
    ensures (got > 0 && Touches(off, got, l)) || l == (off + got) / 512
  {
  }

  lemma NoSlice(pages: seq<Block>, off: nat)
    requires |pages| == MAX_BLOCKS && off <= MAX_SIZE
    ensures Slice(pages, off, 0) == []
  {
  }

  /** kfs_vnode_read. It returns the bytes of the file from the position on, cut
      at the end of the file, exactly when every block they lie in is mapped;
      otherwise it stops at the first unmapped block with ENOENT. */
  method Read(k: Kfs, f: OpenFile, ino: nat, count: nat) returns (st: Status, bytes: seq<U8>)
    requires k.Valid() && f.offset < OFFSET_LIMIT
    requires ino in k.V().inoUsed ==> Owns(k.sb, k.V(), k.V().inodes[ino]) && k.V().inodes[ino].size <= MAX_SIZE
    modifies f`offset
    ensures ino >= k.sb.inodeCount ==> st == EINVAL && bytes == [] && f.offset == old(f.offset)
    ensures ino < k.sb.inodeCount && ino !in k.V().inoUsed ==> st == ENOENT && bytes == [] && f.offset == old(f.offset)
    ensures ino in k.V().inoUsed ==>
      var n := k.V().inodes[ino];
      var file := FileOf(n, k.V().data);
      var want := ToRead(n.size, old(f.offset), count);
      && f.offset == old(f.offset) + |bytes| && |bytes| <= want
      && (|bytes| > 0 ==> bytes == Slice(file.pages, old(f.offset), |bytes|))
      && (st == OK <==> |bytes| == want)
      && (st == OK <==> (want == 0 || Touched(old(f.offset), want) <= file.mapped))
      && (st != OK ==> st == ENOENT && f.offset / 512 !in file.mapped)
  {
    hide Kfs.V, Kfs.Valid, Owns, Pages, Mapped, Slice, Touched;
    bytes := [];
    var n;
    st, n := k.ReadInode(ino);
    if st != OK { return; }
    if f.offset >= n.size { return OK, []; }
    var want := if f.offset + count > n.size then n.size - f.offset else count;
    if want > 0 {
      st, bytes := ReadLoop(k, n, f.offset, want);
      f.offset := f.offset + |bytes|;
    }
  }

  // ---------------------------------------------------------- truncation

  /** The blocks that slots `lo..hi` point to. */
  ghost function SlotBlocks(n: Inode, data: DataMap, lo: nat, hi: nat): (r: set<nat>)
    requires hi <= SLOTS
  {
    set s: nat | lo <= s < hi && Ptr(n, data, s) != 0 :: Ptr(n, data, s)
  }

  lemma SlotBlocksNext(n: Inode, data: DataMap, lo: nat, hi: nat)
    requires lo <= hi < SLOTS
    ensures SlotBlocks(n, data, lo, hi + 1) ==
              SlotBlocks(n, data, lo, hi) + (if Ptr(n, data, hi) == 0 then {} else {Ptr(n, data, hi)})
  {
    hide Ptr;
  }

  lemma SlotBlocksAll(n: Inode, data: DataMap)
    ensures Blocks(n, data) ==
              SlotBlocks(n, data, 0, 10) + SlotBlocks(n, data, 11, SLOTS)
              + (if n.indirect == 0 then {} else {n.indirect})
  {
    IndPtr(n, data);
    hide Ptr;
    forall b | b in Blocks(n, data)
      ensures b in SlotBlocks(n, data, 0, 10) + SlotBlocks(n, data, 11, SLOTS)
                   + (if n.indirect == 0 then {} else {n.indirect})
    {
      var s: nat :| s < SLOTS && Ptr(n, data, s) == b && b != 0;
    }
  }

  /** An inode that points nowhere. */
  function Emptied(n: Inode): Inode
  {
    n.(direct := NoDirect, indirect := 0)
  }

  /** kfs_free_inode_blocks: every block the inode reaches is unmarked, and no
      other; the pointers are cleared. */
  method FreeInodeBlocks(k: Kfs, n: Inode) returns (n': Inode)
    requires k.Valid() && Owns(k.sb, k.V(), n)
    modifies k.disk, k.blockBitmap
    ensures k.Valid() && n' == Emptied(n)
    ensures k.V() == old(k.V()).(blkUsed := old(k.V()).blkUsed - Blocks(n, old(k.V()).data))
  {
    hide Kfs.V, Kfs.Valid, WordsOf, Owns, SlotBlocks, Blocks;
    ghost var v := k.V();
    n' := n;
    assert SlotBlocks(n, v.data, 0, 0) == {} by { SlotBlocksNone(n, v.data, 0); }
    for i := 0 to 10
      invariant k.Valid() && k.V() == v.(blkUsed := v.blkUsed - SlotBlocks(n, v.data, 0, i))
      invariant n' == n.(direct := n'.direct)
      invariant forall j :: 0 <= j < 10 ==> n'.direct[j] == if j < i then 0 else n.direct[j]
    {
      SlotBlocksNext(n, v.data, 0, i);
      if n'.direct[i] != 0 {
        OwnedPtr(k.sb, v, n, i);
        var r := k.FreeBlock(n'.direct[i]);
        n' := n'.(direct := n'.direct[i := 0]);
      }
    }
    assert n'.direct == NoDirect;
    SlotBlocksAll(n, v.data);
    assert SlotBlocks(n, v.data, 11, 11) == {} by { SlotBlocksNone(n, v.data, 11); }
    ghost var freed := SlotBlocks(n, v.data, 0, 10);
    if n'.indirect != 0 {
      OwnedPtr(k.sb, v, n, IND_SLOT);
      var buf := k.ReadBlock(n'.indirect);
      var ind := WordsOf(buf);
      for i := 0 to 128
        invariant k.Valid() && k.V() == v.(blkUsed := v.blkUsed - freed - SlotBlocks(n, v.data, 11, i + 11))
      {
        SlotBlocksNext(n, v.data, 11, i + 11);
        assert ind[i] == Ptr(n, v.data, i + 11);
        if ind[i] != 0 {
          OwnedPtr(k.sb, v, n, i + 11);
          var r := k.FreeBlock(ind[i]);
        }
      }
      var r := k.FreeBlock(n'.indirect);
      n' := n'.(indirect := 0);
    } else {
      assert SlotBlocks(n, v.data, 11, SLOTS) == {} by { NoEntries(n, v.data, k.sb); }
    }
  }

  lemma SlotBlocksNone(n: Inode, data: DataMap, lo: nat)
    requires lo <= SLOTS
    ensures SlotBlocks(n, data, lo, lo) == {}
  {
  }

  lemma NoEntries(n: Inode, data: DataMap, sb: Superblock)
    requires n.indirect == 0 && 0 !in data
    ensures SlotBlocks(n, data, 11, SLOTS) == {}
  {
  }

  /** An emptied inode reaches nothing and holds nothing. */
  lemma EmptiedFile(n: Inode, data: DataMap)
    requires 0 !in data
    ensures Blocks(Emptied(n), data) == {}
    ensures Mapped(Emptied(n), data) == {}
    ensures Pages(Emptied(n), data) == seq(MAX_BLOCKS, _ => ZeroBlock())
    ensures forall s: nat :: s < SLOTS ==> Ptr(Emptied(n), data, s) == 0
  {
  }

  /** kfs_vnode_truncate: the file becomes empty, every block it had is free
      again, and nothing else changes. */
  method Truncate(k: Kfs, ino: nat) returns (st: Status)
    requires k.Valid()
    requires ino in k.V().inoUsed ==> Owns(k.sb, k.V(), k.V().inodes[ino])
    modifies k.disk, k.blockBitmap
    ensures k.Valid()
    ensures st == if ino >= k.sb.inodeCount then EINVAL else if ino !in old(k.V()).inoUsed then ENOENT else OK
    ensures st != OK ==> k.V() == old(k.V())
    ensures st == OK ==>
      && FileStep(k.sb, old(k.V()), ino, k.V())
      && FileOf(k.V().inodes[ino], k.V().data) == FileState(0, seq(MAX_BLOCKS, _ => ZeroBlock()), {})
      && k.V().blkUsed == old(k.V()).blkUsed - Blocks(old(k.V()).inodes[ino], old(k.V()).data)
      && k.V().inodes[ino] == old(k.V()).inodes[ino].(size := 0, direct := NoDirect, indirect := 0)
  {
    hide Kfs.V, Kfs.Valid;
    var n;
    st, n := k.ReadInode(ino);
    if st != OK { return; }
    ghost var v := k.V();
    n := FreeInodeBlocks(k, n);
    n := n.(size := 0);
    st := k.WriteInode(ino, n);
    TruncateStep(k.sb, v, ino, k.V());
  }

  lemma TruncateStep(sb: Superblock, v: Vol, ino: nat, v': Vol)
    requires Layout(sb) && WellSized(sb, v) && ino < |v.inodes| && Owns(sb, v, v.inodes[ino])
    requires v' == v.(blkUsed := v.blkUsed - Blocks(v.inodes[ino], v.data),
                      inodes := v.inodes[ino := Emptied(v.inodes[ino]).(size := 0)])
    ensures FileStep(sb, v, ino, v')
    ensures FileOf(v'.inodes[ino], v'.data) == FileState(0, seq(MAX_BLOCKS, _ => ZeroBlock()), {})
  {
    hide Ptr, Pages, Mapped, Blocks;
    EmptiedFile(v.inodes[ino], v.data);
    SamePointers(Emptied(v.inodes[ino]), v'.inodes[ino], v.data);
  }
}
