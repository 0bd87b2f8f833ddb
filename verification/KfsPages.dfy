/** What one inode owns and holds: its 139 block pointers (10 direct, 1 indirect,
    128 in the indirect block), the set of blocks they reach, and the 138 pages
    of the file they map. */
module KfsPages {
  import opened Bits
  import opened KfsFormat

  const DIRECT := 10
  const IND_SLOT := 10
  const SLOTS := 139
  const MAX_BLOCKS := 138
  const MAX_SIZE := 70656 // 138 * 512

  type DataMap = map<nat, Block>

  /** Pointer slot `s`: 0..9 direct, 10 the indirect block, 11..138 its entries. */
  function Ptr(n: Inode, data: DataMap, s: nat): nat
    requires s < SLOTS
  {
    if s < DIRECT then n.direct[s]
    else if s == IND_SLOT then n.indirect
    else if n.indirect in data then WordsOf(data[n.indirect])[s - 11]
    else 0
  }

  /** The slot that maps logical block `lb`. */
  function SlotOf(lb: nat): (s: nat)
    requires lb < MAX_BLOCKS
    ensures s < SLOTS && s != IND_SLOT
  {
    if lb < DIRECT then lb else lb + 1
  }

  ghost function Blocks(n: Inode, data: DataMap): (r: set<nat>)
  {
    set s: nat | s < SLOTS && Ptr(n, data, s) != 0 :: Ptr(n, data, s)
  }

  /** Every pointer that is set lies in the data area, and no block is pointed
      to twice. */
  ghost predicate Distinct(sb: Superblock, n: Inode, data: DataMap)
  {
    && (forall s: nat :: s < SLOTS && Ptr(n, data, s) != 0 ==> sb.dataStart <= Ptr(n, data, s) < sb.total)
    && (forall s: nat, t: nat :: s < t < SLOTS && Ptr(n, data, s) != 0 ==> Ptr(n, data, s) != Ptr(n, data, t))
  }

  /** Page `lb` of the file; an unmapped page reads as zeros. */
  function Page(n: Inode, data: DataMap, lb: nat): Block
    requires lb < MAX_BLOCKS
  {
    var p := Ptr(n, data, SlotOf(lb));
    if p != 0 && p in data then data[p] else ZeroBlock()
  }

  function Pages(n: Inode, data: DataMap): (r: seq<Block>)
    ensures |r| == MAX_BLOCKS
  {
    seq(MAX_BLOCKS, lb requires 0 <= lb < MAX_BLOCKS => Page(n, data, lb))
  }

  predicate IsMapped(n: Inode, data: DataMap, lb: nat)
    requires lb < MAX_BLOCKS
  {
    Ptr(n, data, SlotOf(lb)) != 0
  }

  ghost function Mapped(n: Inode, data: DataMap): (r: set<nat>)
  {
    set lb: nat | lb < MAX_BLOCKS && IsMapped(n, data, lb)
  }

  /** Number of blocks that `size` bytes need. */
  function BlocksFor(size: nat): nat
  {
    (size + 511) / 512
  }

  /** Byte `p` of a sequence of pages. */
  function ByteOf(pages: seq<Block>, p: nat): U8
    requires |pages| == MAX_BLOCKS && p < MAX_SIZE
  {
    pages[p / 512][p % 512]
  }

  function Bytes(pages: seq<Block>, size: nat): (r: seq<U8>)
    requires |pages| == MAX_BLOCKS && size <= MAX_SIZE
    ensures |r| == size
  {
    seq(size, p requires 0 <= p < size => ByteOf(pages, p))
  }

  /** A set pointer is one of the file's blocks, and conversely. */
  lemma PtrInBlocks(n: Inode, data: DataMap, s: nat)
    requires s < SLOTS && Ptr(n, data, s) != 0
    ensures Ptr(n, data, s) in Blocks(n, data)
  {
  }

  /** A file reads only its own blocks: if they hold the same data, its
      pointers, blocks and pages are the same. */
  lemma Frame(n: Inode, data: DataMap, data': DataMap)
    requires forall b :: b in Blocks(n, data) && b in data ==> b in data' && data'[b] == data[b]
    requires forall b :: b in data' ==> b in data
    requires 0 !in data
    ensures forall s: nat :: s < SLOTS ==> Ptr(n, data', s) == Ptr(n, data, s)
    ensures Blocks(n, data') == Blocks(n, data)
    ensures Pages(n, data') == Pages(n, data)
    ensures Mapped(n, data') == Mapped(n, data)
  {
    hide WordsOf;
    if n.indirect != 0 { PtrInBlocks(n, data, IND_SLOT); }
    forall s: nat | s < SLOTS ensures Ptr(n, data', s) == Ptr(n, data, s) {
    }
    forall lb: nat | lb < MAX_BLOCKS ensures Page(n, data', lb) == Page(n, data, lb) {
      if Ptr(n, data, SlotOf(lb)) != 0 { PtrInBlocks(n, data, SlotOf(lb)); }
    }
  }

  lemma FrameDistinct(sb: Superblock, n: Inode, data: DataMap, data': DataMap)
    requires Distinct(sb, n, data)
    requires forall s: nat :: s < SLOTS ==> Ptr(n, data', s) == Ptr(n, data, s)
    ensures Distinct(sb, n, data')
  {
  }

  // ------------------------------------------------- the conservation law

  /** The file is sound in the volume: its pointers are distinct, and every
      block it reaches is marked. */
  ghost predicate Owns(sb: Superblock, v: Vol, n: Inode)
  {
    Distinct(sb, n, v.data) && Blocks(n, v.data) <= v.blkUsed
  }

  /** `v', n'` follows `v, n` by work on one file: the file stays sound, the
      marked blocks it does not own are exactly the ones it did not own before,
      and they hold what they held. */
  ghost predicate Step(sb: Superblock, v: Vol, n: Inode, v': Vol, n': Inode)
  {
    && Owns(sb, v', n')
    && v'.blkUsed - Blocks(n', v'.data) == v.blkUsed - Blocks(n, v.data)
    && (forall b :: b in v.blkUsed && b !in Blocks(n, v.data) && b in v.data ==>
         b in v'.data && v'.data[b] == v.data[b])
    && v'.inodes == v.inodes && v'.inoUsed == v.inoUsed
  }

  /** No pointer that was set has changed. */
  ghost predicate Grows(n: Inode, data: DataMap, n': Inode, data': DataMap)
  {
    forall s: nat :: s < SLOTS && Ptr(n, data, s) != 0 ==> Ptr(n', data', s) == Ptr(n, data, s)
  }

  lemma GrowsTrans(n: Inode, data: DataMap, n1: Inode, d1: DataMap, n2: Inode, d2: DataMap)
    requires Grows(n, data, n1, d1) && Grows(n1, d1, n2, d2)
    ensures Grows(n, data, n2, d2)
  {
    hide Ptr;
  }

  lemma StepRefl(sb: Superblock, v: Vol, n: Inode)
    requires Owns(sb, v, n)
    ensures Step(sb, v, n, v, n)
  {
  }

  /** A pointer that is set names a marked block of the data area. */
  lemma OwnedPtr(sb: Superblock, v: Vol, n: Inode, s: nat)
    requires Owns(sb, v, n) && s < SLOTS && Ptr(n, v.data, s) != 0
    ensures sb.dataStart <= Ptr(n, v.data, s) < sb.total && Ptr(n, v.data, s) in v.blkUsed
  {
    PtrInBlocks(n, v.data, s);
  }

  lemma StepTrans(sb: Superblock, v: Vol, n: Inode, v1: Vol, n1: Inode, v2: Vol, n2: Inode)
    requires Step(sb, v, n, v1, n1) && Step(sb, v1, n1, v2, n2)
    ensures Step(sb, v, n, v2, n2)
  {
    hide Blocks, Distinct;
    forall b | b in v.blkUsed && b !in Blocks(n, v.data) && b in v.data
      ensures b in v2.data && v2.data[b] == v.data[b]
    {
      assert b in v1.blkUsed - Blocks(n1, v1.data);
    }
  }

  /** Setting an empty slot to a fresh block whose data is zero: a `Step` that
      leaves every page as it was and maps one more. */
  lemma AddPointer(sb: Superblock, v: Vol, n: Inode, v': Vol, n': Inode, slot: nat, blk: nat)
    requires Layout(sb) && WellSized(sb, v) && WellSized(sb, v')
    requires Owns(sb, v, n) && slot < SLOTS && Ptr(n, v.data, slot) == 0
    requires sb.dataStart <= blk < sb.total && blk !in v.blkUsed
    requires forall s: nat :: s < SLOTS ==> Ptr(n', v'.data, s) == if s == slot then blk else Ptr(n, v.data, s)
    requires v'.blkUsed == v.blkUsed + {blk} && v'.inodes == v.inodes && v'.inoUsed == v.inoUsed
    requires forall b :: b in v.blkUsed && b in v.data && b != n.indirect ==> v'.data[b] == v.data[b]
    requires v'.data[blk] == ZeroBlock()
    ensures Step(sb, v, n, v', n') && Grows(n, v.data, n', v'.data)
    ensures Blocks(n', v'.data) == Blocks(n, v.data) + {blk}
    ensures Pages(n', v'.data) == Pages(n, v.data)
    ensures Mapped(n', v'.data) == if slot == IND_SLOT then Mapped(n, v.data)
              else Mapped(n, v.data) + {if slot < DIRECT then slot else slot - 1}
  {
    hide Ptr;
    var B, B' := Blocks(n, v.data), Blocks(n', v'.data);
    forall b | b in B ensures b in B' {
      var s: nat :| s < SLOTS && Ptr(n, v.data, s) == b && b != 0;
      assert Ptr(n', v'.data, s) == b;
    }
    assert Ptr(n', v'.data, slot) == blk;
    assert B' == B + {blk};
    assert Ptr(n, v.data, IND_SLOT) == n.indirect by { IndPtr(n, v.data); }
    forall lb: nat | lb < MAX_BLOCKS ensures Page(n', v'.data, lb) == Page(n, v.data, lb) {
      var p := Ptr(n, v.data, SlotOf(lb));
      if SlotOf(lb) != slot && p != 0 {
        assert p in B;
        assert p != n.indirect;
      }
    }
  }

  /** Clearing a set slot and unmarking its block: a `Step` that unmaps that page. */
  lemma RemovePointer(sb: Superblock, v: Vol, n: Inode, v': Vol, n': Inode, slot: nat)
    requires Layout(sb) && WellSized(sb, v) && WellSized(sb, v')
    requires Owns(sb, v, n) && slot < SLOTS && Ptr(n, v.data, slot) != 0
    requires forall s: nat :: s < SLOTS ==> Ptr(n', v'.data, s) == if s == slot then 0 else Ptr(n, v.data, s)
    requires v'.blkUsed == v.blkUsed - {Ptr(n, v.data, slot)} && v'.inodes == v.inodes && v'.inoUsed == v.inoUsed
    requires forall b :: b in v.data && b != n.indirect ==> v'.data[b] == v.data[b]
    ensures Step(sb, v, n, v', n')
    ensures Pages(n', v'.data) == if slot == IND_SLOT then Pages(n, v.data)
                                  else Pages(n, v.data)[if slot < DIRECT then slot else slot - 1 := ZeroBlock()]
    ensures Mapped(n', v'.data) == if slot == IND_SLOT then Mapped(n, v.data)
                                   else Mapped(n, v.data) - {if slot < DIRECT then slot else slot - 1}
  {
    hide Ptr;
    RemovedBlocks(sb, v, n, v', n', slot);
    RemovedPages(sb, v, n, v', n', slot);
    hide Pages, Mapped;
    assert Distinct(sb, n', v'.data);
    forall b | b in v.blkUsed && b !in Blocks(n, v.data) && b in v.data
      ensures b in v'.data && v'.data[b] == v.data[b]
    {
      if n.indirect != 0 { IndPtr(n, v.data); PtrInBlocks(n, v.data, IND_SLOT); }
    }
  }

  lemma RemovedBlocks(sb: Superblock, v: Vol, n: Inode, v': Vol, n': Inode, slot: nat)
    requires Owns(sb, v, n) && slot < SLOTS && Ptr(n, v.data, slot) != 0
    requires forall s: nat :: s < SLOTS ==> Ptr(n', v'.data, s) == if s == slot then 0 else Ptr(n, v.data, s)
    ensures Blocks(n', v'.data) == Blocks(n, v.data) - {Ptr(n, v.data, slot)}
  {
    hide Ptr;
    var B, B' := Blocks(n, v.data), Blocks(n', v'.data);
    forall b | b in B - {Ptr(n, v.data, slot)} ensures b in B' {
      var s: nat :| s < SLOTS && Ptr(n, v.data, s) == b && b != 0;
      assert Ptr(n', v'.data, s) == b;
    }
    forall b | b in B' ensures b in B - {Ptr(n, v.data, slot)} {
      var s: nat :| s < SLOTS && Ptr(n', v'.data, s) == b && b != 0;
      assert Ptr(n, v.data, s) == b && s != slot;
    }
  }

  lemma RemovedPages(sb: Superblock, v: Vol, n: Inode, v': Vol, n': Inode, slot: nat)
    requires WellSized(sb, v) && WellSized(sb, v')
    requires Owns(sb, v, n) && slot < SLOTS && Ptr(n, v.data, slot) != 0
    requires forall s: nat :: s < SLOTS ==> Ptr(n', v'.data, s) == if s == slot then 0 else Ptr(n, v.data, s)
    requires forall b :: b in v.data && b != n.indirect ==> v'.data[b] == v.data[b]
    ensures Pages(n', v'.data) == if slot == IND_SLOT then Pages(n, v.data)
                                  else Pages(n, v.data)[if slot < DIRECT then slot else slot - 1 := ZeroBlock()]
    ensures Mapped(n', v'.data) == if slot == IND_SLOT then Mapped(n, v.data)
                                   else Mapped(n, v.data) - {if slot < DIRECT then slot else slot - 1}
  {
    IndPtr(n, v.data);
    hide Ptr, Blocks;
    forall lb: nat | lb < MAX_BLOCKS
      ensures Page(n', v'.data, lb) == if SlotOf(lb) == slot then ZeroBlock() else Page(n, v.data, lb)
      ensures IsMapped(n', v'.data, lb) == (SlotOf(lb) != slot && IsMapped(n, v.data, lb))
    {
      var q := Ptr(n, v.data, SlotOf(lb));
      if SlotOf(lb) != slot && q != 0 { assert q != n.indirect; }
    }
    if slot != IND_SLOT {
      var lb := if slot < DIRECT then slot else slot - 1;
      assert SlotOf(lb) == slot;
    }
  }

  lemma IndPtr(n: Inode, data: DataMap)
    ensures Ptr(n, data, IND_SLOT) == n.indirect
  {
  }

  /** Overwriting the data of a mapped page: a `Step` that changes that page only. */
  lemma StorePage(sb: Superblock, v: Vol, n: Inode, lb: nat, buf: Block)
    requires Layout(sb) && WellSized(sb, v) && Owns(sb, v, n)
    requires lb < MAX_BLOCKS && IsMapped(n, v.data, lb)
    ensures var p := Ptr(n, v.data, SlotOf(lb));
            var v' := v.(data := v.data[p := buf]);
            && Step(sb, v, n, v', n) && Grows(n, v.data, n, v'.data)
            && Pages(n, v'.data) == Pages(n, v.data)[lb := buf]
            && Mapped(n, v'.data) == Mapped(n, v.data)
  {
    var p := Ptr(n, v.data, SlotOf(lb));
    var v' := v.(data := v.data[p := buf]);
    NotIndirect(sb, n, v.data, lb);
    SamePtrs(n, v.data, p, buf);
    hide Ptr;
    SameBlocks(n, v.data, v'.data);
    FrameDistinct(sb, n, v.data, v'.data);
    PtrInBlocks(n, v.data, SlotOf(lb));
    StorePages(sb, n, v.data, lb, buf);
    hide Blocks, Distinct, Pages, Mapped;
  }

  lemma NotIndirect(sb: Superblock, n: Inode, data: DataMap, lb: nat)
    requires Distinct(sb, n, data) && lb < MAX_BLOCKS && IsMapped(n, data, lb)
    ensures Ptr(n, data, SlotOf(lb)) != n.indirect
  {
    IndPtr(n, data);
    hide Ptr;
  }

  lemma StorePages(sb: Superblock, n: Inode, data: DataMap, lb: nat, buf: Block)
    requires Distinct(sb, n, data) && lb < MAX_BLOCKS && IsMapped(n, data, lb)
    requires forall s: nat :: s < SLOTS ==> Ptr(n, data[Ptr(n, data, SlotOf(lb)) := buf], s) == Ptr(n, data, s)
    ensures Pages(n, data[Ptr(n, data, SlotOf(lb)) := buf]) == Pages(n, data)[lb := buf]
  {
    hide Ptr;
    var data' := data[Ptr(n, data, SlotOf(lb)) := buf];
    forall l: nat | l < MAX_BLOCKS ensures Page(n, data', l) == if l == lb then buf else Page(n, data, l) {
      if l != lb && IsMapped(n, data, l) {
        assert SlotOf(l) != SlotOf(lb);
      }
    }
  }

  lemma SameBlocks(n: Inode, data: DataMap, data': DataMap)
    requires forall s: nat :: s < SLOTS ==> Ptr(n, data', s) == Ptr(n, data, s)
    ensures Blocks(n, data') == Blocks(n, data) && Mapped(n, data') == Mapped(n, data)
  {
    hide Ptr;
    forall s: nat | s < SLOTS && Ptr(n, data, s) != 0 ensures Ptr(n, data, s) in Blocks(n, data') {
      assert Ptr(n, data', s) != 0;
    }
    forall s: nat | s < SLOTS && Ptr(n, data', s) != 0 ensures Ptr(n, data', s) in Blocks(n, data) {
      assert Ptr(n, data, s) != 0;
    }
  }

  lemma SamePtrs(n: Inode, data: DataMap, p: nat, buf: Block)
    requires p != n.indirect
    ensures forall s: nat :: s < SLOTS ==> Ptr(n, data[p := buf], s) == Ptr(n, data, s)
  {
    hide WordsOf;
  }

  /** Only the pointers of an inode matter to what it reaches. */
  lemma SizeOnly(sb: Superblock, v: Vol, n: Inode, size: U32)
    ensures var n' := n.(size := size);
            && Blocks(n', v.data) == Blocks(n, v.data) && Pages(n', v.data) == Pages(n, v.data)
            && Mapped(n', v.data) == Mapped(n, v.data)
            && (Owns(sb, v, n) ==> Step(sb, v, n, v, n')) && Grows(n, v.data, n', v.data)
  {
    var n' := n.(size := size);
    SamePointers(n, n', v.data);
    if Owns(sb, v, n) {
      hide Ptr;
      assert Distinct(sb, n', v.data);
    }
  }

  lemma SamePointers(n: Inode, n': Inode, data: DataMap)
    requires n'.direct == n.direct && n'.indirect == n.indirect
    ensures forall s: nat :: s < SLOTS ==> Ptr(n', data, s) == Ptr(n, data, s)
    ensures Blocks(n', data) == Blocks(n, data) && Pages(n', data) == Pages(n, data)
    ensures Mapped(n', data) == Mapped(n, data)
  {
    assert forall s: nat :: s < SLOTS ==> Ptr(n', data, s) == Ptr(n, data, s) by { hide WordsOf; }
    hide Ptr;
    forall s: nat | s < SLOTS && Ptr(n, data, s) != 0 ensures Ptr(n, data, s) in Blocks(n', data) {
      assert Ptr(n', data, s) != 0;
    }
    forall s: nat | s < SLOTS && Ptr(n', data, s) != 0 ensures Ptr(n', data, s) in Blocks(n, data) {
      assert Ptr(n, data, s) != 0;
    }
    forall lb: nat | lb < MAX_BLOCKS
      ensures Page(n', data, lb) == Page(n, data, lb) && IsMapped(n', data, lb) == IsMapped(n, data, lb)
    {
    }
  }

  // -------------------------------------------------- a file as a value

  /** A file apart from where its blocks lie: length, pages, and which of the
      138 pages are backed by a block. */
  datatype FileState = FileState(size: nat, pages: seq<Block>, mapped: set<nat>)

  ghost function FileOf(n: Inode, data: DataMap): (f: FileState)
    ensures |f.pages| == MAX_BLOCKS
  {
    FileState(n.size, Pages(n, data), Mapped(n, data))
  }

  function PatchPage(page: Block, base: nat, off: nat, bytes: seq<U8>): Block
  {
    seq(512, j requires 0 <= j < 512 => if off <= base + j < off + |bytes| then bytes[base + j - off] else page[j])
  }

  /** The pages with `bytes` stored from byte `off` on. */
  function Patch(pages: seq<Block>, off: nat, bytes: seq<U8>): (r: seq<Block>)
    requires |pages| == MAX_BLOCKS
    ensures |r| == MAX_BLOCKS
  {
    seq(MAX_BLOCKS, lb requires 0 <= lb < MAX_BLOCKS => PatchPage(pages[lb], 512 * lb, off, bytes))
  }

  /** The blocks that `count > 0` bytes from `off` on touch. */
  function Touched(off: nat, count: nat): (r: set<nat>)
    requires count > 0
  {
    set lb: nat | lb <= (off + count - 1) / 512 && Touches(off, count, lb)
  }

  predicate Touches(off: nat, count: nat, lb: nat)
  {
    off / 512 <= lb <= (off + count - 1) / 512
  }

  /** Writing `bytes` at `off`: what kfs_vnode_write promises of a file. */
  function Put(f: FileState, off: nat, bytes: seq<U8>): FileState
    requires |f.pages| == MAX_BLOCKS
  {
    if bytes == [] then f
    else FileState(if f.size < off + |bytes| then off + |bytes| else f.size,
                   Patch(f.pages, off, bytes), f.mapped + Touched(off, |bytes|))
  }

  lemma PatchTwice(pages: seq<Block>, off: nat, a: seq<U8>, b: seq<U8>)
    requires |pages| == MAX_BLOCKS
    ensures Patch(Patch(pages, off, a), off + |a|, b) == Patch(pages, off, a + b)
  {
    var l, r := Patch(Patch(pages, off, a), off + |a|, b), Patch(pages, off, a + b);
    forall lb | 0 <= lb < MAX_BLOCKS ensures l[lb] == r[lb] {
      assert l[lb] == PatchPage(PatchPage(pages[lb], 512 * lb, off, a), 512 * lb, off + |a|, b);
      assert l[lb] == PatchPage(pages[lb], 512 * lb, off, a + b);
    }
  }

  /** Two adjacent writes are one write. */
  lemma PutTwice(f: FileState, off: nat, a: seq<U8>, b: seq<U8>)
    requires |f.pages| == MAX_BLOCKS
    requires a != [] && b != [] ==> (off + |a|) % 512 == 0
    ensures Put(Put(f, off, a), off + |a|, b) == Put(f, off, a + b)
  {
    if a == [] { assert a + b == b; }
    else if b == [] { assert a + b == a; }
    else {
      PatchTwice(f.pages, off, a, b);
      assert Touched(off, |a|) + Touched(off + |a|, |b|) == Touched(off, |a + b|);
    }
  }

  /** A write that stays within one page replaces part of that page. */
  lemma PutInPage(f: FileState, off: nat, bytes: seq<U8>)
    requires |f.pages| == MAX_BLOCKS && bytes != []
    requires off / 512 < MAX_BLOCKS && off % 512 + |bytes| <= 512
    ensures var lb, o := off / 512, off % 512;
            var page := f.pages[lb];
            && Put(f, off, bytes).pages == f.pages[lb := page[..o] + bytes + page[o + |bytes|..]]
            && Put(f, off, bytes).mapped == f.mapped + {lb}
  {
    var lb, o := off / 512, off % 512;
    var page := f.pages[lb];
    var r := Patch(f.pages, off, bytes);
    forall l | 0 <= l < MAX_BLOCKS ensures r[l] == f.pages[lb := page[..o] + bytes + page[o + |bytes|..]][l] {
      if l == lb {
        assert PatchPage(page, 512 * lb, off, bytes) == page[..o] + bytes + page[o + |bytes|..];
      } else {
        assert PatchPage(f.pages[l], 512 * l, off, bytes) == f.pages[l];
      }
    }
    assert Touched(off, |bytes|) == {lb};
  }
}
