/** The on-disk format of KFS (include/kfs.h): 512-byte blocks, little-endian
    words, 64-byte inodes, the superblock, and the volume a disk image denotes. */
module KfsFormat {
  import opened Bits

  const MAGIC: U32 := 0x4B465331
  const SUPERBLOCK_BLK := 64
  const TYPE_FILE: U32 := 1
  const TYPE_DIR: U32 := 2

  type U16 = x: int | 0 <= x < 0x1_0000
  type U32 = x: int | 0 <= x < 0x1_0000_0000
  type Block = b: seq<U8> | |b| == 512 witness seq(512, _ => 0)

  function ZeroBlock(): (r: Block)
    ensures forall i :: 0 <= i < 512 ==> r[i] == 0
  {
    seq(512, _ => 0)
  }

  // ---------------------------------------------------------------- words

  function LE32(x: U32): (r: seq<U8>)
    ensures |r| == 4
  {
    [x % 256, x / 0x100 % 256, x / 0x1_0000 % 256, x / 0x100_0000]
  }

  function U32At(s: seq<U8>, i: nat): U32
    requires i + 4 <= |s|
  {
    s[i] as int + s[i + 1] as int * 0x100 + s[i + 2] as int * 0x1_0000 + s[i + 3] as int * 0x100_0000
  }

  lemma DigitsOf(x: int)
    requires 0 <= x < 0x1_0000_0000
    ensures x == x % 256 + x / 0x100 % 256 * 0x100 + x / 0x1_0000 % 256 * 0x1_0000 + x / 0x100_0000 * 0x100_0000
  {
    var p, q, r := x / 0x100, x / 0x1_0000, x / 0x100_0000;
    assert q == p / 256 && r == q / 256;
  }

  lemma U32RoundTrip(x: U32, s: seq<U8>, i: nat)
    requires i + 4 <= |s|
    requires s[i] == LE32(x)[0] && s[i + 1] == LE32(x)[1] && s[i + 2] == LE32(x)[2] && s[i + 3] == LE32(x)[3]
    ensures U32At(s, i) == x
  {
    DigitsOf(x);
  }

  type Words = w: seq<U32> | |w| == 128 witness seq(128, _ => 0)

  /** A block read as `uint32_t buf[128]`. */
  function WordsOf(b: Block): Words
  {
    seq(128, i requires 0 <= i < 128 => U32At(b, 4 * i))
  }

  /** The bytes of `uint32_t buf[128]`. */
  function Pack(w: Words): Block
  {
    seq(512, i requires 0 <= i < 512 => LE32(w[i / 4])[i % 4])
  }

  lemma WordsOfPack(w: Words)
    ensures WordsOf(Pack(w)) == w
  {
    forall i | 0 <= i < 128 ensures WordsOf(Pack(w))[i] == w[i] {
      WordOfPack(w, i);
    }
  }

  lemma WordOfPack(w: Words, i: nat)
    requires i < 128
    ensures U32At(Pack(w), 4 * i) == w[i]
  {
    var b := Pack(w);
    assert (4 * i + 1) / 4 == (4 * i + 2) / 4 == (4 * i + 3) / 4 == i;
    U32RoundTrip(w[i], b, 4 * i);
  }

  lemma ZeroWords()
    ensures WordsOf(ZeroBlock()) == seq(128, _ => 0)
  {
  }

  // --------------------------------------------------------------- inodes

  type Direct = d: seq<U32> | |d| == 10 witness [0, 0, 0, 0, 0, 0, 0, 0, 0, 0]

  datatype Inode = Inode(size: U32, typ: U32, direct: Direct, indirect: U32, links: U32, pad0: U32, pad1: U32)

  const NoDirect: Direct := [0, 0, 0, 0, 0, 0, 0, 0, 0, 0]

  function InodeWords(n: Inode): (r: seq<U32>)
    ensures |r| == 16
  {
    [n.size, n.typ] + n.direct + [n.indirect, n.links, n.pad0, n.pad1]
  }

  function InodeOf(w: seq<U32>): Inode
    requires |w| == 16
  {
    Inode(w[0], w[1], w[2..12], w[12], w[13], w[14], w[15])
  }

  lemma InodeRoundTrip(n: Inode)
    ensures InodeOf(InodeWords(n)) == n
  {
    assert InodeWords(n)[2..12] == n.direct;
  }

  /** The sixteen words of slot `o`, and the words after slot `o` is rewritten. */
  function Slot(w: Words, o: nat): (r: seq<U32>)
    requires o < 8
    ensures |r| == 16
  {
    w[16 * o..16 * o + 16]
  }

  function PutSlot(w: Words, o: nat, x: seq<U32>): Words
    requires o < 8 && |x| == 16
  {
    w[..16 * o] + x + w[16 * o + 16..]
  }

  lemma SlotOfPutSlot(w: Words, o: nat, x: seq<U32>, p: nat)
    requires o < 8 && p < 8 && |x| == 16
    ensures Slot(PutSlot(w, o, x), p) == if p == o then x else Slot(w, p)
  {
    if p != o { assert Slot(PutSlot(w, o, x), p) == Slot(w, p); }
  }

  /** `inode_arr[o] = in` in a block of eight inodes. */
  function PutInode(b: Block, o: nat, n: Inode): Block
    requires o < 8
  {
    Pack(PutSlot(WordsOf(b), o, InodeWords(n)))
  }

  function GetInode(b: Block, o: nat): Inode
    requires o < 8
  {
    InodeOf(Slot(WordsOf(b), o))
  }

  /** Rewriting slot `o` of an inode block stores that inode and leaves the
      other seven slots as they were. */
  lemma GetPutInode(b: Block, o: nat, n: Inode, p: nat)
    requires o < 8 && p < 8
    ensures GetInode(PutInode(b, o, n), p) == if p == o then n else GetInode(b, p)
  {
    var w := WordsOf(b);
    WordsOfPack(PutSlot(w, o, InodeWords(n)));
    SlotOfPutSlot(w, o, InodeWords(n), p);
    InodeRoundTrip(n);
  }

  // ----------------------------------------------------------- superblock

  datatype Superblock = Superblock(
    total: nat,        // total_blocks
    inodeCount: nat,
    bbStart: nat,      // block bitmap
    bbBlks: nat,
    ibStart: nat,      // inode bitmap
    ibBlks: nat,
    itStart: nat,      // inode table
    itBlks: nat,
    dataStart: nat,
    root: nat)

  /** The layout the kernel relies on: the metadata regions follow the
      superblock in order, do not overlap, and are large enough for what they
      describe; the root is inode 0, the one that allocation never hands out. */
  predicate Layout(sb: Superblock)
  {
    && 0 < sb.total <= 1000000
    && SUPERBLOCK_BLK < sb.bbStart
    && 0 < sb.bbBlks
    && sb.bbStart + sb.bbBlks <= sb.ibStart
    && sb.ibStart + sb.ibBlks <= sb.itStart
    && sb.itStart + sb.itBlks <= sb.dataStart <= sb.total
    && sb.total <= 4096 * sb.bbBlks
    && sb.inodeCount <= 4096 * sb.ibBlks
    && sb.inodeCount <= 8 * sb.itBlks
    && sb.root == 0 < sb.inodeCount
  }

  const KryosLayout := Superblock(32768, 128, 65, 8, 73, 1, 74, 16, 90, 0)

  /** The layout that the formatter writes is a possible one. */
  lemma KryosFits()
    ensures Layout(KryosLayout)
  {
  }

  function SuperblockWords(sb: Superblock): Words
    requires Layout(sb)
  {
    [MAGIC, sb.total, sb.inodeCount, sb.bbStart, sb.bbBlks, sb.ibStart, sb.ibBlks,
     sb.itStart, sb.itBlks, sb.dataStart, sb.root] + seq(117, _ => 0)
  }

  function SuperblockOf(b: Block): Superblock
  {
    var w := WordsOf(b);
    Superblock(w[1], w[2], w[3], w[4], w[5], w[6], w[7], w[8], w[9], w[10])
  }

  lemma SuperblockRoundTrip(sb: Superblock)
    requires Layout(sb)
    ensures SuperblockOf(Pack(SuperblockWords(sb))) == sb
    ensures WordsOf(Pack(SuperblockWords(sb)))[0] == MAGIC
  {
    WordsOfPack(SuperblockWords(sb));
  }

  /** Where its fields stand in block 64: eleven little-endian words. */
  lemma SuperblockOnDisk(b: Block)
    ensures var sb := SuperblockOf(b);
            && WordsOf(b)[0] == U32At(b, 0) && sb.total == U32At(b, 4) && sb.inodeCount == U32At(b, 8)
            && sb.bbStart == U32At(b, 12) && sb.bbBlks == U32At(b, 16) && sb.ibStart == U32At(b, 20)
            && sb.ibBlks == U32At(b, 24) && sb.itStart == U32At(b, 28) && sb.itBlks == U32At(b, 32)
            && sb.dataStart == U32At(b, 36) && sb.root == U32At(b, 40)
  {
    hide U32At;
  }

  // --------------------------------------------------------------- volume

  /** What a disk image means: which blocks and inodes are marked, the inode
      table, and the contents of the data area. */
  datatype Vol = Vol(blkUsed: set<nat>, inoUsed: set<nat>, inodes: seq<Inode>, data: map<nat, Block>)

  /** The components have the sizes the superblock gives. */
  ghost predicate WellSized(sb: Superblock, v: Vol)
  {
    && (forall b :: b in v.blkUsed ==> b < sb.total)
    && (forall i :: i in v.inoUsed ==> i < sb.inodeCount)
    && |v.inodes| == sb.inodeCount
    && (forall b: nat :: b in v.data <==> sb.dataStart <= b < sb.total)
  }

  type Disk = seq<Block>

  /** Bit `i` of the bitmap that starts at block `start`. */
  predicate BitAt(disk: Disk, start: nat, i: nat)
    requires start + i / 8 / 512 < |disk|
  {
    Bit(disk[start + i / 8 / 512][i / 8 % 512], i % 8)
  }

  function BlkUsed(sb: Superblock, disk: Disk): set<nat>
    requires Layout(sb) && |disk| == sb.total
  {
    set b: nat | 0 <= b < sb.total && BitAt(disk, sb.bbStart, b)
  }

  function InoUsed(sb: Superblock, disk: Disk): set<nat>
    requires Layout(sb) && |disk| == sb.total
  {
    set i: nat | 0 <= i < sb.inodeCount && BitAt(disk, sb.ibStart, i)
  }

  function Inodes(sb: Superblock, disk: Disk): (r: seq<Inode>)
    requires Layout(sb) && |disk| == sb.total
    ensures |r| == sb.inodeCount
  {
    seq(sb.inodeCount, i requires 0 <= i < sb.inodeCount => GetInode(disk[sb.itStart + i / 8], i % 8))
  }

  function Data(sb: Superblock, disk: Disk): (r: map<nat, Block>)
    requires Layout(sb) && |disk| == sb.total
  {
    map b: nat | sb.dataStart <= b < sb.total :: disk[b]
  }

  function VolOf(sb: Superblock, disk: Disk): (v: Vol)
    requires Layout(sb) && |disk| == sb.total
    ensures WellSized(sb, v)
  {
    Vol(BlkUsed(sb, disk), InoUsed(sb, disk), Inodes(sb, disk), Data(sb, disk))
  }

  /** Where a volume's marks stand: one bit a block, lowest bit first, 4096 to a sector. */
  lemma MarksOnDisk(sb: Superblock, disk: Disk, i: nat)
    requires Layout(sb) && |disk| == sb.total
    ensures i < sb.total ==>
              (i in VolOf(sb, disk).blkUsed <==> disk[sb.bbStart + i / 4096][i / 8 % 512] / Pow2(i % 8) % 2 == 1)
    ensures i < sb.inodeCount ==>
              (i in VolOf(sb, disk).inoUsed <==> disk[sb.ibStart + i / 4096][i / 8 % 512] / Pow2(i % 8) % 2 == 1)
  {
    assert i / 8 / 512 == i / 4096;
    if i < sb.total { BitIsDigit(disk[sb.bbStart + i / 4096][i / 8 % 512], i % 8); }
    if i < sb.inodeCount { BitIsDigit(disk[sb.ibStart + i / 4096][i / 8 % 512], i % 8); }
  }

  /** Where its inodes stand: 64 bytes each, eight to a block, little-endian fields. */
  lemma InodeOnDisk(sb: Superblock, disk: Disk, i: nat)
    requires Layout(sb) && |disk| == sb.total && i < sb.inodeCount
    ensures var n, b, o := VolOf(sb, disk).inodes[i], disk[sb.itStart + i / 8], i % 8 * 64;
            && n.size == U32At(b, o) && n.typ == U32At(b, o + 4)
            && (forall j :: 0 <= j < 10 ==> n.direct[j] == U32At(b, o + 8 + 4 * j))
            && n.indirect == U32At(b, o + 48) && n.links == U32At(b, o + 52)
  {
    hide U32At;
    var b, o := disk[sb.itStart + i / 8], i % 8;
    var w := Slot(WordsOf(b), o);
    forall j | 0 <= j < 16 ensures w[j] == U32At(b, o * 64 + 4 * j) {
      assert w[j] == WordsOf(b)[16 * o + j];
      assert 4 * (16 * o + j) == o * 64 + 4 * j;
    }
    assert w[0] == U32At(b, o * 64) && w[1] == U32At(b, o * 64 + 4);
    assert w[12] == U32At(b, o * 64 + 48) && w[13] == U32At(b, o * 64 + 52);
    forall j | 0 <= j < 10 ensures w[2..12][j] == U32At(b, o * 64 + 8 + 4 * j) {
      assert w[j + 2] == U32At(b, o * 64 + 4 * (j + 2));
    }
  }

  /** The disk after bit `i` of the bitmap at `start` is set or cleared. */
  function Flip(disk: Disk, start: nat, i: nat, on: bool): (r: Disk)
    requires start + i / 8 / 512 < |disk|
    ensures |r| == |disk|
    ensures forall s :: 0 <= s < |disk| && s != start + i / 8 / 512 ==> r[s] == disk[s]
  {
    var s := start + i / 8 / 512;
    disk[s := disk[s][i / 8 % 512 := SetBit(disk[s][i / 8 % 512], i % 8, on)]]
  }

  lemma FlipBit(disk: Disk, start: nat, i: nat, on: bool, j: nat)
    requires start + i / 8 / 512 < |disk| && start + j / 8 / 512 < |disk|
    ensures BitAt(Flip(disk, start, i, on), start, j) == if j == i then on else BitAt(disk, start, j)
  {
    if j / 8 == i / 8 && j % 8 == i % 8 { assert j == i; }
  }

  /** Flipping a bit of the block bitmap flips that block's mark and nothing else. */
  lemma FlipBlockBit(sb: Superblock, disk: Disk, b: nat, on: bool)
    requires Layout(sb) && |disk| == sb.total && b < sb.total
    ensures VolOf(sb, Flip(disk, sb.bbStart, b, on))
         == VolOf(sb, disk).(blkUsed := if on then VolOf(sb, disk).blkUsed + {b} else VolOf(sb, disk).blkUsed - {b})
  {
    var disk' := Flip(disk, sb.bbStart, b, on);
    forall j: nat | j < sb.total
      ensures BitAt(disk', sb.bbStart, j) == if j == b then on else BitAt(disk, sb.bbStart, j)
    {
      FlipBit(disk, sb.bbStart, b, on, j);
    }
    SameInodes(sb, disk, disk');
    SameData(sb, disk, disk');
    SameInodeMarks(sb, disk, disk');
  }

  /** Flipping a bit of the inode bitmap flips that inode's mark and nothing else. */
  lemma FlipInodeBit(sb: Superblock, disk: Disk, i: nat, on: bool)
    requires Layout(sb) && |disk| == sb.total && i < sb.inodeCount
    ensures VolOf(sb, Flip(disk, sb.ibStart, i, on))
         == VolOf(sb, disk).(inoUsed := if on then VolOf(sb, disk).inoUsed + {i} else VolOf(sb, disk).inoUsed - {i})
  {
    var disk' := Flip(disk, sb.ibStart, i, on);
    forall j: nat | j < sb.inodeCount
      ensures BitAt(disk', sb.ibStart, j) == if j == i then on else BitAt(disk, sb.ibStart, j)
    {
      FlipBit(disk, sb.ibStart, i, on, j);
    }
    SameInodes(sb, disk, disk');
    SameData(sb, disk, disk');
    SameBlockMarks(sb, disk, disk');
  }

  lemma SameInodes(sb: Superblock, disk: Disk, disk': Disk)
    requires Layout(sb) && |disk| == |disk'| == sb.total
    requires forall s :: sb.itStart <= s < sb.itStart + sb.itBlks ==> disk'[s] == disk[s]
    ensures Inodes(sb, disk') == Inodes(sb, disk)
  {
    forall i | 0 <= i < sb.inodeCount ensures Inodes(sb, disk')[i] == Inodes(sb, disk)[i] {
      assert disk'[sb.itStart + i / 8] == disk[sb.itStart + i / 8];
    }
  }

  lemma SameData(sb: Superblock, disk: Disk, disk': Disk)
    requires Layout(sb) && |disk| == |disk'| == sb.total
    requires forall s :: sb.dataStart <= s < sb.total ==> disk'[s] == disk[s]
    ensures Data(sb, disk') == Data(sb, disk)
  {
  }

  lemma SameBlockMarks(sb: Superblock, disk: Disk, disk': Disk)
    requires Layout(sb) && |disk| == |disk'| == sb.total
    requires forall s :: sb.bbStart <= s < sb.bbStart + sb.bbBlks ==> disk'[s] == disk[s]
    ensures BlkUsed(sb, disk') == BlkUsed(sb, disk)
  {
    forall j: nat | j < sb.total ensures BitAt(disk', sb.bbStart, j) == BitAt(disk, sb.bbStart, j) {
      assert disk'[sb.bbStart + j / 8 / 512] == disk[sb.bbStart + j / 8 / 512];
    }
  }

  lemma SameInodeMarks(sb: Superblock, disk: Disk, disk': Disk)
    requires Layout(sb) && |disk| == |disk'| == sb.total
    requires forall s :: sb.ibStart <= s < sb.ibStart + sb.ibBlks ==> disk'[s] == disk[s]
    ensures InoUsed(sb, disk') == InoUsed(sb, disk)
  {
    forall j: nat | j < sb.inodeCount ensures BitAt(disk', sb.ibStart, j) == BitAt(disk, sb.ibStart, j) {
      assert disk'[sb.ibStart + j / 8 / 512] == disk[sb.ibStart + j / 8 / 512];
    }
  }

  /** The disk after inode `ino` is rewritten. */
  function Store(sb: Superblock, disk: Disk, ino: nat, n: Inode): (r: Disk)
    requires Layout(sb) && |disk| == sb.total && ino < sb.inodeCount
    ensures |r| == |disk|
    ensures forall s :: 0 <= s < |disk| && s != sb.itStart + ino / 8 ==> r[s] == disk[s]
  {
    disk[sb.itStart + ino / 8 := PutInode(disk[sb.itStart + ino / 8], ino % 8, n)]
  }

  lemma StoreInodeAt(sb: Superblock, disk: Disk, ino: nat, n: Inode, i: nat)
    requires Layout(sb) && |disk| == sb.total && ino < sb.inodeCount && i < sb.inodeCount
    ensures Inodes(sb, Store(sb, disk, ino, n))[i] == if i == ino then n else Inodes(sb, disk)[i]
  {
    hide PutInode, GetInode;
    if i / 8 == ino / 8 {
      GetPutInode(disk[sb.itStart + ino / 8], ino % 8, n, i % 8);
    }
  }

  /** Rewriting one inode slot changes that inode and nothing else. */
  lemma StoreInode(sb: Superblock, disk: Disk, ino: nat, n: Inode)
    requires Layout(sb) && |disk| == sb.total && ino < sb.inodeCount
    ensures VolOf(sb, Store(sb, disk, ino, n)) == VolOf(sb, disk).(inodes := VolOf(sb, disk).inodes[ino := n])
  {
    var disk' := Store(sb, disk, ino, n);
    var was, now := Inodes(sb, disk), Inodes(sb, disk');
    forall i | 0 <= i < sb.inodeCount ensures now[i] == was[ino := n][i] {
      StoreInodeAt(sb, disk, ino, n, i);
    }
    assert now == was[ino := n];
    SameData(sb, disk, disk');
    SameBlockMarks(sb, disk, disk');
    SameInodeMarks(sb, disk, disk');
  }

  /** Writing a block of the data area changes that block and nothing else. */
  lemma StoreData(sb: Superblock, disk: Disk, b: nat, blk: Block)
    requires Layout(sb) && |disk| == sb.total && sb.dataStart <= b < sb.total
    ensures VolOf(sb, disk[b := blk]) == VolOf(sb, disk).(data := VolOf(sb, disk).data[b := blk])
  {
    var disk' := disk[b := blk];
    SameBlockMarks(sb, disk, disk');
    SameInodeMarks(sb, disk, disk');
    SameInodes(sb, disk, disk');
    assert Data(sb, disk') == Data(sb, disk)[b := blk];
  }
}
