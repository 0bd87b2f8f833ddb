/** scripts/mkfs_kfs.py: build an image that holds a list of files in the root
    directory. */
module Mkfs {
  import opened Bits
  import opened KfsFormat
  import opened KfsDevice
  import opened KfsPages
  import opened KfsFile
  import opened KfsContent
  import opened KfsVolume
  import opened KfsDirent
  import opened KfsDir
  import opened KfsNames
  import opened KfsNamespace

  /** The KFS class of the script: the image, changed in place. */
  class Image {
    const sb: Superblock
    const disk: array<Block>

    ghost predicate Valid()
      reads disk
      ensures Valid() ==> Layout(sb)
    {
      Layout(sb) && disk.Length == sb.total && Formatted(sb, disk[..])
    }

    ghost function V(): (v: Vol)
      requires Valid()
      reads disk
      ensures WellSized(sb, v)
    {
      VolOf(sb, disk[..])
    }

    /** A zeroed image with the superblock written and the metadata marked. */
    constructor (sb: Superblock)
      requires Layout(sb)
      ensures Valid() && this.sb == sb && fresh(disk)
      ensures V().blkUsed == Below(sb.dataStart) && V().inoUsed == {}
      ensures forall b :: b in V().data ==> V().data[b] == ZeroBlock()
    {
      this.sb := sb;
      var d := new Block[sb.total](i => ZeroBlock());
      disk := d;
      new;
      WriteSuperblock();
      MarkMetadata();
    }

    method WriteSuperblock()
      requires Layout(sb) && disk.Length == sb.total && forall i :: 0 <= i < sb.total ==> disk[i] == ZeroBlock()
      modifies disk
      ensures Valid() && V().blkUsed == {} && V().inoUsed == {}
      ensures forall b :: b in V().data ==> V().data[b] == ZeroBlock()
    {
      hide VolOf, SuperblockWords, Pack, WordsOf;
      disk[SUPERBLOCK_BLK] := Pack(SuperblockWords(sb));
      SuperblockRoundTrip(sb);
      BlankVolume(sb, disk[..]);
    }

    method MarkMetadata()
      requires Valid() && V().blkUsed == {}
      modifies disk
      ensures Valid() && V() == old(V()).(blkUsed := Below(sb.dataStart))
    {
      hide V, Formatted;
      assert Below(0) == {};
      for i := 0 to sb.dataStart
        invariant Valid() && V() == old(V()).(blkUsed := Below(i))
      {
        SetBlockBitmap(i, true);
        assert Below(i + 1) == Below(i) + {i};
      }
    }

    method WriteBlock(b: nat, chunk: seq<U8>)
      requires Valid() && sb.dataStart <= b < sb.total && |chunk| <= 512
      modifies disk
      ensures Valid() && V() == old(V()).(data := old(V()).data[b := chunk + Zeros(512 - |chunk|)])
    {
      hide VolOf, Formatted;
      StoreData(sb, disk[..], b, chunk + Zeros(512 - |chunk|));
      FormattedStore(sb, disk[..], b, chunk + Zeros(512 - |chunk|));
      disk[b] := chunk + Zeros(512 - |chunk|);
      assert disk[..] == old(disk[..])[b := chunk + Zeros(512 - |chunk|)];
    }

    method SetBlockBitmap(i: nat, on: bool)
      requires Valid() && i < sb.total
      modifies disk
      ensures Valid() && V() == old(V()).(blkUsed := if on then old(V()).blkUsed + {i} else old(V()).blkUsed - {i})
    {
      hide VolOf, Formatted, Bit;
      FlipBlockBit(sb, disk[..], i, on);
      FormattedElsewhere(sb, disk[..], sb.bbStart, i, on);
      var s := sb.bbStart + i / 8 / 512;
      disk[s] := disk[s][i / 8 % 512 := SetBit(disk[s][i / 8 % 512], i % 8, on)];
      assert disk[..] == Flip(old(disk[..]), sb.bbStart, i, on);
    }

    method SetInodeBitmap(i: nat, on: bool)
      requires Valid() && i < sb.inodeCount
      modifies disk
      ensures Valid() && V() == old(V()).(inoUsed := if on then old(V()).inoUsed + {i} else old(V()).inoUsed - {i})
    {
      hide VolOf, Formatted, Bit;
      FlipInodeBit(sb, disk[..], i, on);
      FormattedElsewhere(sb, disk[..], sb.ibStart, i, on);
      var s := sb.ibStart + i / 8 / 512;
      disk[s] := disk[s][i / 8 % 512 := SetBit(disk[s][i / 8 % 512], i % 8, on)];
      assert disk[..] == Flip(old(disk[..]), sb.ibStart, i, on);
    }

    method WriteInode(ino: nat, n: Inode)
      requires Valid() && ino < sb.inodeCount
      modifies disk
      ensures Valid()
      ensures V() == old(V()).(inodes := old(V()).inodes[ino := n], inoUsed := old(V()).inoUsed + {ino})
    {
      hide VolOf, Formatted, PutInode;
      ghost var was := disk[..];
      StoreInode(sb, was, ino, n);
      FormattedStore(sb, was, sb.itStart + ino / 8, PutInode(disk[sb.itStart + ino / 8], ino % 8, n));
      disk[sb.itStart + ino / 8] := PutInode(disk[sb.itStart + ino / 8], ino % 8, n);
      assert disk[..] == Store(sb, was, ino, n);
      SetInodeBitmap(ino, true);
    }

    /** The lowest free data block, marked; the script raises when there is none. */
    method AllocateBlock() returns (ok: bool, blk: nat)
      requires Valid()
      modifies disk
      ensures Valid()
      ensures !ok ==> V() == old(V()) && Free(sb, V()) == {}
      ensures ok ==> blk in Free(sb, old(V())) && (forall j :: sb.dataStart <= j < blk ==> j in old(V()).blkUsed)
                     && V() == old(V()).(blkUsed := old(V()).blkUsed + {blk})
                     && |Free(sb, V())| == |Free(sb, old(V()))| - 1
    {
      hide V, Formatted;
      blk := 0;
      for i := sb.dataStart to sb.total
        invariant Valid() && V() == old(V())
        invariant forall j :: sb.dataStart <= j < i ==> j in V().blkUsed
      {
        var used := BlockUsed(i);
        if !used {
          OneLess(sb, V(), i);
          SetBlockBitmap(i, true);
          return true, i;
        }
      }
      return false, 0;
    }

    method BlockUsed(i: nat) returns (used: bool)
      requires Valid() && i < sb.total
      ensures used == (i in V().blkUsed)
    {
      hide Inodes, Data, Bit;
      used := Bit(disk[sb.bbStart + i / 8 / 512][i / 8 % 512], i % 8);
    }
  }

  lemma FormattedStore(sb: Superblock, disk: Disk, s: nat, buf: Block)
    requires Layout(sb) && |disk| == sb.total && sb.itStart <= s < sb.total && Formatted(sb, disk)
    ensures Formatted(sb, disk[s := buf])
  {
  }

  lemma BlankVolume(sb: Superblock, disk: Disk)
    requires Layout(sb) && |disk| == sb.total
    requires forall s :: 0 <= s < sb.total && s != SUPERBLOCK_BLK ==> disk[s] == ZeroBlock()
    ensures BlkUsed(sb, disk) == {} && InoUsed(sb, disk) == {}
    ensures forall b :: b in Data(sb, disk) ==> Data(sb, disk)[b] == ZeroBlock()
    ensures VolOf(sb, disk).blkUsed == {} && VolOf(sb, disk).inoUsed == {} && VolOf(sb, disk).data == Data(sb, disk)
  {
    forall j: nat | j < sb.total ensures !BitAt(disk, sb.bbStart, j) { ZeroByte(j % 8); }
    forall j: nat | j < sb.inodeCount ensures !BitAt(disk, sb.ibStart, j) { ZeroByte(j % 8); }
  }

  // ------------------------------------------------------ storing a file

  /** Blocks taken one by one from the free ones. */
  ghost predicate Taken(sb: Superblock, v: Vol, blocks: seq<U32>)
  {
    && (forall j :: 0 <= j < |blocks| ==> blocks[j] in Free(sb, v))
    && (forall i, j :: 0 <= i < j < |blocks| ==> blocks[i] != blocks[j])
  }

  /** The chunks of `data` stand in the blocks taken, in order. */
  ghost predicate Stored(sb: Superblock, v: Vol, blocks: seq<U32>, data: seq<U8>, v': Vol)
  {
    && Taken(sb, v, blocks) && |blocks| <= BlocksFor(|data|)
    && v'.blkUsed == v.blkUsed + SetOf(blocks) && v'.inoUsed == v.inoUsed && v'.inodes == v.inodes
    && (forall b :: b in v.data <==> b in v'.data)
    && (forall b :: b in v.data && b in v.blkUsed ==> v'.data[b] == v.data[b])
    && (forall j :: 0 <= j < |blocks| ==> (blocks[j] as nat) in v'.data && v'.data[blocks[j]] == PageOf(data, j))
  }

  lemma OneLess(sb: Superblock, v: Vol, b: nat)
    requires sb.dataStart <= b < sb.total && b !in v.blkUsed
    ensures b in Free(sb, v) && |Free(sb, v.(blkUsed := v.blkUsed + {b}))| == |Free(sb, v)| - 1
  {
    assert b in Free(sb, v);
    assert Free(sb, v.(blkUsed := v.blkUsed + {b})) == Free(sb, v) - {b};
  }

  /** The loop over 512-byte chunks. */
  method StoreChunks(img: Image, data: seq<U8>) returns (ok: bool, blocks: seq<U32>)
    requires img.Valid()
    modifies img.disk
    ensures img.Valid()
    ensures ok ==> Stored(img.sb, old(img.V()), blocks, data, img.V()) && |blocks| == BlocksFor(|data|)
    ensures ok <==> BlocksFor(|data|) <= |Free(img.sb, old(img.V()))|
    ensures ok ==> |Free(img.sb, img.V())| == |Free(img.sb, old(img.V()))| - BlocksFor(|data|)
  {
    hide Image.V, Image.Valid, Zeros;
    ghost var v := img.V();
    blocks := [];
    assert SetOf([]) == {};
    for j := 0 to BlocksFor(|data|)
      invariant img.Valid() && Stored(img.sb, v, blocks, data, img.V()) && |blocks| == j
      invariant |Free(img.sb, img.V())| == |Free(img.sb, v)| - j
    {
      ghost var v1 := img.V();
      var got, blk := img.AllocateBlock();
      if !got { return false, blocks; }
      var hi := if 512 * j + 512 > |data| then |data| else 512 * j + 512;
      ghost var v2 := img.V();
      img.WriteBlock(blk, data[512 * j..hi]);
      SameFree(img.sb, v2, img.V());
      PageOfChunk(data, j);
      StoredNext(img.sb, v, blocks, data, v1, blk, img.V());
      blocks := blocks + [blk];
    }
    return true, blocks;
  }

  lemma PageOfChunk(data: seq<U8>, j: nat)
    requires 512 * j < |data|
    ensures var hi := if 512 * j + 512 > |data| then |data| else 512 * j + 512;
            PageOf(data, j) == data[512 * j..hi] + Zeros(512 - (hi - 512 * j))
  {
  }

  lemma StoredNext(sb: Superblock, v: Vol, blocks: seq<U32>, data: seq<U8>, v1: Vol, blk: U32, v2: Vol)
    requires Layout(sb) && WellSized(sb, v1) && Stored(sb, v, blocks, data, v1) && |blocks| < BlocksFor(|data|)
    requires blk in Free(sb, v1)
    requires v2 == v1.(blkUsed := v1.blkUsed + {blk as nat}, data := v1.data[blk as nat := PageOf(data, |blocks|)])
    ensures Stored(sb, v, blocks + [blk], data, v2)
  {
    hide PageOf;
    var blocks' := blocks + [blk];
    forall j | 0 <= j < |blocks| ensures blocks[j] != blk {
      assert (blocks[j] as nat) in SetOf(blocks);
    }
    assert SetOf(blocks') == SetOf(blocks) + {blk as nat} by {
      assert blocks'[|blocks|] == blk;
      forall b | b in SetOf(blocks) ensures b in SetOf(blocks') {
        var j :| 0 <= j < |blocks| && b == blocks[j] as nat;
        assert blocks'[j] == blocks[j];
      }
    }
  }

  function At(blocks: seq<U32>, i: nat): U32
  {
    if i < |blocks| then blocks[i] else 0
  }

  /** What slot `s` holds in an inode that lists `blocks`. */
  function Listed(n: Inode, blocks: seq<U32>, s: nat): nat
  {
    if s < 10 then At(blocks, s) else if s == 10 then n.indirect else At(blocks, s - 1)
  }

  lemma InFree(sb: Superblock, v: Vol, b: nat)
    requires b in Free(sb, v)
    ensures sb.dataStart <= b < sb.total && b !in v.blkUsed
  {
  }

  /** An inode whose pointers list `blocks` in order. */
  ghost predicate Lists(n: Inode, data: DataMap, blocks: seq<U32>)
  {
    && |blocks| <= MAX_BLOCKS
    && (forall s :: 0 <= s < 10 ==> n.direct[s] == At(blocks, s))
    && (if |blocks| <= 10 then n.indirect == 0
        else n.indirect in data && forall j :: 0 <= j < 128 ==> WordsOf(data[n.indirect])[j] == At(blocks, j + 10))
  }

  lemma ListedPtr(n: Inode, data: DataMap, blocks: seq<U32>, s: nat)
    requires Lists(n, data, blocks) && 0 !in data && s < SLOTS
    ensures Ptr(n, data, s) == Listed(n, blocks, s)
  {
    hide WordsOf;
    if 10 < s && |blocks| > 10 { assert WordsOf(data[n.indirect])[s - 11] == At(blocks, s - 1); }
  }

  /** Such an inode owns exactly the blocks taken for it, and its content is
      `data`, without holes. */
  lemma ListedFile(sb: Superblock, v: Vol, blocks: seq<U32>, data: seq<U8>, v': Vol, n: Inode, extra: set<nat>)
    requires Layout(sb) && WellSized(sb, v) && WellSized(sb, v')
    requires Taken(sb, v, blocks) && |blocks| == BlocksFor(|data|) && Lists(n, v'.data, blocks)
    requires n.size == |data| <= MAX_SIZE
    requires forall j :: 0 <= j < |blocks| ==> v'.data[blocks[j]] == PageOf(data, j)
    requires extra == (if |blocks| > 10 then {n.indirect as nat} else {}) && extra <= Free(sb, v)
    requires extra !! SetOf(blocks)
    requires v'.blkUsed == v.blkUsed + SetOf(blocks) + extra
    ensures Owns(sb, v', n) && v'.blkUsed - Blocks(n, v'.data) == v.blkUsed
    ensures Solid(FileOf(n, v'.data)) && Content(FileOf(n, v'.data)) == data
  {
    hide Ptr, PageOf, Free;
    var d := v'.data;
    forall s: nat | s < SLOTS ensures Ptr(n, d, s) == Listed(n, blocks, s) {
      ListedPtr(n, d, blocks, s);
    }
    forall j | 0 <= j < |blocks| ensures (blocks[j] as nat) in d { InFree(sb, v, blocks[j]); }
    ListedBlocks(sb, v, blocks, n, d, extra);
    ListedPages(sb, v, blocks, data, n, d);
    hide Lists, Blocks, Pages, Mapped, Distinct;
    assert Blocks(n, d) == SetOf(blocks) + extra;
    forall b | b in SetOf(blocks) + extra ensures b !in v.blkUsed { FreeNotUsed(sb, v, b, blocks, extra); }
    PageBytes(Pages(n, d), data);
  }

  lemma FreeNotUsed(sb: Superblock, v: Vol, b: nat, blocks: seq<U32>, extra: set<nat>)
    requires Taken(sb, v, blocks) && extra <= Free(sb, v) && b in SetOf(blocks) + extra
    ensures b !in v.blkUsed
  {
  }

  lemma ListedBlocks(sb: Superblock, v: Vol, blocks: seq<U32>, n: Inode, d: DataMap, extra: set<nat>)
    requires Layout(sb) && Taken(sb, v, blocks) && |blocks| <= MAX_BLOCKS
    requires forall s: nat :: s < SLOTS ==> Ptr(n, d, s) == Listed(n, blocks, s)
    requires extra == (if |blocks| > 10 then {n.indirect as nat} else {}) && extra <= Free(sb, v)
    requires extra !! SetOf(blocks)
    requires |blocks| <= 10 ==> n.indirect == 0
    ensures Distinct(sb, n, d) && Blocks(n, d) == SetOf(blocks) + extra
  {
    hide Ptr;
    forall j | 0 <= j < |blocks|
      ensures blocks[j] != 0 && sb.dataStart <= blocks[j] < sb.total && (blocks[j] as nat) in SetOf(blocks)
    {
      assert blocks[j] in Free(sb, v);
    }
    if |blocks| > 10 {
      assert n.indirect as nat in extra;
      assert Ptr(n, d, 10) == n.indirect;
    }
    hide Free;
    ListedReached(blocks, n, d, extra);
  }

  /** The pointers that are set are those listed. */
  lemma ListedReached(blocks: seq<U32>, n: Inode, d: DataMap, extra: set<nat>)
    requires |blocks| <= MAX_BLOCKS && (forall j :: 0 <= j < |blocks| ==> blocks[j] != 0)
    requires forall s: nat :: s < SLOTS ==> Ptr(n, d, s) == Listed(n, blocks, s)
    requires extra == (if |blocks| > 10 then {n.indirect as nat} else {}) && 0 !in extra
    requires |blocks| <= 10 ==> n.indirect == 0
    ensures Blocks(n, d) == SetOf(blocks) + extra
  {
    hide Ptr;
    forall b | b in SetOf(blocks) ensures b in Blocks(n, d) {
      var j :| 0 <= j < |blocks| && b == blocks[j] as nat;
      var s := if j < 10 then j else j + 1;
      assert Ptr(n, d, s) == b;
    }
    if |blocks| > 10 { assert Ptr(n, d, 10) == n.indirect; }
    forall b | b in Blocks(n, d) ensures b in SetOf(blocks) + extra {
      var s: nat :| s < SLOTS && Ptr(n, d, s) == b && b != 0;
      assert b == Listed(n, blocks, s);
    }
  }

  lemma ListedPages(sb: Superblock, v: Vol, blocks: seq<U32>, data: seq<U8>, n: Inode, d: DataMap)
    requires Layout(sb) && Taken(sb, v, blocks) && |blocks| == BlocksFor(|data|) <= MAX_BLOCKS
    requires forall j :: 0 <= j < |blocks| ==> (blocks[j] as nat) in d && d[blocks[j]] == PageOf(data, j)
    requires forall s: nat :: s < SLOTS ==> Ptr(n, d, s) == Listed(n, blocks, s)
    ensures Mapped(n, d) == Below(BlocksFor(|data|))
    ensures forall lb: nat :: lb < MAX_BLOCKS ==>
              Pages(n, d)[lb] == if lb < BlocksFor(|data|) then PageOf(data, lb) else ZeroBlock()
  {
    hide Ptr, PageOf;
    forall lb: nat | lb < MAX_BLOCKS
      ensures Pages(n, d)[lb] == if lb < BlocksFor(|data|) then PageOf(data, lb) else ZeroBlock()
      ensures IsMapped(n, d, lb) <==> lb < BlocksFor(|data|)
    {
      assert Ptr(n, d, SlotOf(lb)) == At(blocks, lb);
      if lb < |blocks| { assert blocks[lb] in Free(sb, v); }
    }
  }

  // --------------------------------------------------- the image as a whole

  function DirectOf(blocks: seq<U32>): Direct
  {
    seq(10, s requires 0 <= s < 10 => At(blocks, s))
  }

  function IndirectOf(blocks: seq<U32>): Words
  {
    seq(128, j requires 0 <= j < 128 => At(blocks, j + 10))
  }

  /** Inode `ino` is new, has the given type, and holds `data` without holes. */
  ghost predicate Holds(v: Vol, ino: nat, typ: U32, data: seq<U8>)
  {
    && ino in v.inoUsed && ino < |v.inodes| && v.inodes[ino].typ == typ && v.inodes[ino].links == 1
    && Solid(FileAt(v, ino)) && Content(FileAt(v, ino)) == data
    && (v.inodes[ino].indirect != 0 ==> BlocksFor(|data|) > 10)
  }

  /** The blocks that a file of `size` bytes takes, its indirect block included. */
  function Cost(size: nat): nat
  {
    BlocksFor(size) + if BlocksFor(size) > 10 then 1 else 0
  }

  /** Store `data` as inode `ino`; the script raises when blocks run out or the
      file needs more than one indirect block. */
  method StoreFile(img: Image, ino: nat, typ: U32, data: seq<U8>) returns (ok: bool)
    requires img.Valid() && ino < img.sb.inodeCount && ino !in img.V().inoUsed
    modifies img.disk
    ensures img.Valid()
    ensures ok ==> Grown(img.sb, old(img.V()), ino, img.V()) && Holds(img.V(), ino, typ, data)
    ensures ok <==> BlocksFor(|data|) <= MAX_BLOCKS && Cost(|data|) <= |Free(img.sb, old(img.V()))|
    ensures ok ==> |Free(img.sb, img.V())| == |Free(img.sb, old(img.V()))| - Cost(|data|)
  {
    hide Image.V, Image.Valid, WordsOf, Pack, Free, Owns, Blocks, Solid, Content, PageOf, FileOf;
    ghost var v := img.V();
    var blocks;
    ok, blocks := StoreChunks(img, data);
    if !ok { return; }
    ghost var v1 := img.V();
    var ind: U32 := 0;
    if |blocks| > 10 {
      var got, b := img.AllocateBlock();
      if !got { return false; }
      InFree(img.sb, v1, b);
      ind := b;
      if |blocks| - 10 > 128 { return false; }
      ghost var v1' := img.V();
      img.WriteBlock(ind, Pack(IndirectOf(blocks)));
      SameFree(img.sb, v1', img.V());
    }
    ghost var v2 := img.V();
    ghost var extra: set<nat> := if |blocks| > 10 then {ind as nat} else {};
    var n := Inode(|data|, typ, DirectOf(blocks), ind, 1, 0, 0);
    BuiltFile(img.sb, v, blocks, data, v1, ind, v2, n, extra);
    img.WriteInode(ino, n);
    SameFree(img.sb, v2, img.V());
    GrownByStore(img.sb, v, ino, v2, n, img.V());
  }

  lemma BuiltFile(sb: Superblock, v: Vol, blocks: seq<U32>, data: seq<U8>, v1: Vol, ind: U32, v2: Vol, n: Inode,
                  extra: set<nat>)
    requires Layout(sb) && WellSized(sb, v) && WellSized(sb, v2) && WellSized(sb, v1)
    requires Stored(sb, v, blocks, data, v1) && |blocks| == BlocksFor(|data|) <= MAX_BLOCKS && |data| < 0x1_0000_0000
    requires n == Inode(|data|, n.typ, DirectOf(blocks), ind, 1, 0, 0)
    requires if |blocks| > 10 then ind in Free(sb, v1) && extra == {ind as nat}
               && v2 == v1.(blkUsed := v1.blkUsed + {ind as nat},
                            data := v1.data[ind as nat := Pack(IndirectOf(blocks)) + Zeros(0)])
             else ind == 0 && extra == {} && v2 == v1
    ensures Owns(sb, v2, n) && v2.blkUsed - Blocks(n, v2.data) == v.blkUsed
    ensures Solid(FileOf(n, v2.data)) && Content(FileOf(n, v2.data)) == data
    ensures forall b :: b in v.blkUsed && b in v.data ==> b in v2.data && v2.data[b] == v.data[b]
    ensures v2.inodes == v.inodes && v2.inoUsed == v.inoUsed
  {
    hide PageOf, Pack, WordsOf, Solid, Content, Owns, Blocks, FileOf;
    if |blocks| > 10 {
      WordsOfPack(IndirectOf(blocks));
      assert Pack(IndirectOf(blocks)) + Zeros(0) == Pack(IndirectOf(blocks));
      InFree(sb, v1, ind);
      forall j | 0 <= j < |blocks| ensures blocks[j] != ind { assert (blocks[j] as nat) in SetOf(blocks); }
      assert extra <= Free(sb, v) && extra !! SetOf(blocks);
    }
    assert Lists(n, v2.data, blocks);
    assert v2.blkUsed == v.blkUsed + SetOf(blocks) + extra;
    hide Free, Lists, Taken, SetOf;
    ListedFile(sb, v, blocks, data, v2, n, extra);
  }

  lemma GrownByStore(sb: Superblock, v: Vol, ino: nat, v2: Vol, n: Inode, v3: Vol)
    requires v2.inodes == v.inodes && v2.inoUsed == v.inoUsed && ino !in v.inoUsed && ino < |v.inodes|
    requires Owns(sb, v2, n) && v2.blkUsed - Blocks(n, v2.data) == v.blkUsed
    requires forall b :: b in v.blkUsed && b in v.data ==> b in v2.data && v2.data[b] == v.data[b]
    requires v3 == v2.(inodes := v2.inodes[ino := n], inoUsed := v2.inoUsed + {ino})
    ensures Grown(sb, v, ino, v3) && FileAt(v3, ino) == FileOf(n, v2.data)
  {
  }

  datatype HostFile = HostFile(name: Name, data: seq<U8>)

  function RootEntry(files: seq<HostFile>, i: nat): Entry
    requires i < |files| && |files| < 0x1_0000_0000
  {
    Entry(i + 1, FILE8, files[i].name)
  }

  function RootEntries(files: seq<HostFile>): (es: seq<Entry>)
    requires |files| < 0x1_0000_0000
    ensures |es| == |files|
  {
    seq(|files|, i requires 0 <= i < |files| => RootEntry(files, i))
  }

  /** Inodes 1..n hold the first `n` files. */
  ghost predicate HoldsAll(v: Vol, files: seq<HostFile>, n: nat)
  {
    n <= |files| && forall i :: 0 <= i < n ==> HoldsFile(v, files[i], i + 1)
  }

  ghost predicate HoldsFile(v: Vol, file: HostFile, ino: nat)
  {
    Holds(v, ino, TYPE_FILE, file.data)
  }

  lemma HoldsKept(v: Vol, v': Vol, ino: nat, files: seq<HostFile>, n: nat)
    requires HoldsAll(v, files, n) && Keeps(v, v', v.inoUsed) && v'.inoUsed == v.inoUsed + {ino}
    ensures HoldsAll(v', files, n)
  {
    hide FileAt, Solid, Content;
    forall i | 0 <= i < n ensures HoldsFile(v', files[i], i + 1) {
      assert HoldsFile(v, files[i], i + 1);
    }
  }

  function CostAll(files: seq<HostFile>): nat
  {
    if files == [] then 0 else CostAll(files[..|files| - 1]) + Cost(|files[|files| - 1].data|)
  }

  /** The bytes of the root directory. */
  function RootSize(files: seq<HostFile>): nat
  {
    if files == [] then 0 else RootSize(files[..|files| - 1]) + RecLen(files[|files| - 1].name)
  }

  predicate SmallFiles(files: seq<HostFile>)
  {
    forall i :: 0 <= i < |files| ==> BlocksFor(|files[i].data|) <= MAX_BLOCKS
  }

  /** What the volume must hold: an inode for each file, no file or root directory
      beyond one indirect block, and a data block for every chunk and table. */
  predicate Fits(sb: Superblock, files: seq<HostFile>)
  {
    && |files| < sb.inodeCount && SmallFiles(files) && BlocksFor(RootSize(files)) <= MAX_BLOCKS
    && CostAll(files) + Cost(RootSize(files)) <= sb.total - sb.dataStart
  }

  lemma CostStep(files: seq<HostFile>, i: nat)
    requires i < |files|
    ensures CostAll(files[..i + 1]) == CostAll(files[..i]) + Cost(|files[i].data|)
    ensures RootSize(files[..i + 1]) == RootSize(files[..i]) + RecLen(files[i].name)
  {
    assert files[..i + 1][..i] == files[..i];
  }

  lemma {:induction false} CostMono(files: seq<HostFile>, i: nat)
    requires i <= |files|
    ensures CostAll(files[..i]) <= CostAll(files)
    decreases |files| - i
  {
    if i < |files| {
      CostStep(files, i);
      CostMono(files, i + 1);
    } else {
      assert files[..i] == files;
    }
  }

  lemma BlankFree(sb: Superblock, v: Vol)
    requires v.blkUsed == Below(sb.dataStart) && sb.dataStart <= sb.total
    ensures |Free(sb, v)| == sb.total - sb.dataStart
  {
    BetweenSize(sb.dataStart, sb.total);
    assert Free(sb, v) == Below(sb.total) - Below(sb.dataStart);
  }

  /** The volume holds exactly these files and the root that lists them, owns its
      blocks, leaks none, and has the blocks left that they do not need. */
  ghost predicate Built(sb: Superblock, files: seq<HostFile>, v: Vol)
  {
    && Sound(sb, v) && NoLeak(sb, v) && |files| < 0x1_0000_0000 && v.inoUsed == Below(|files| + 1)
    && HoldsAll(v, files, |files|) && ValidEntries(RootEntries(files))
    && Holds(v, ROOT, TYPE_DIR, EncodeAll(RootEntries(files))) && |EncodeAll(RootEntries(files))| == RootSize(files)
    && |Free(sb, v)| == sb.total - sb.dataStart - CostAll(files) - Cost(RootSize(files))
  }

  /** The script: every file in order, then the root directory. The image holds
      exactly these files, satisfies the volume invariant without a leak, and its
      namespace is a tree exactly when no two files share a name. */
  method Build(img: Image, files: seq<HostFile>) returns (ok: bool)
    requires img.Valid() && img.sb.inodeCount < 0x1_0000_0000
    requires img.V().blkUsed == Below(img.sb.dataStart) && img.V().inoUsed == {}
    requires forall i :: 0 <= i < |files| ==> ValidName(files[i].name) && !IsDots(files[i].name)
    modifies img.disk
    ensures img.Valid()
    ensures ok ==> |files| < img.sb.inodeCount && Built(img.sb, files, img.V())
    ensures ok ==> (FsInv(img.sb, img.V()) <==> UniqueNames(RootEntries(files)))
    ensures ok <==> Fits(img.sb, files)
  {
    hide Image.V, Image.Valid, Sound, NoLeak, Holds, Grown, Encode, EncodeAll, ValidName, Keeps, FsInv, RootEntries;
    hide Free, Cost, CostAll, RootSize, RecLen;
    BlankFree(img.sb, img.V()) by { LayoutOrder(img); }
    assert CostAll(files[..0]) == 0 && RootSize(files[..0]) == 0 by { NoCost(files); }
    assert Sound(img.sb, img.V()) && NoLeak(img.sb, img.V()) by { BlankSound(img.sb, img.V()); }
    var root: seq<U8> := [];
    NoRootEntries(files);
    for i := 0 to |files|
      invariant img.Valid() && Sound(img.sb, img.V()) && NoLeak(img.sb, img.V())
      invariant img.V().inoUsed == Below(i + 1) - {ROOT}
      invariant HoldsAll(img.V(), files, i)
      invariant i < img.sb.inodeCount && ValidEntries(RootEntries(files[..i]))
      invariant root == EncodeAll(RootEntries(files[..i]))
      invariant |root| == RootSize(files[..i]) && forall j :: 0 <= j < i ==> BlocksFor(|files[j].data|) <= MAX_BLOCKS
      invariant |Free(img.sb, img.V())| == img.sb.total - img.sb.dataStart - CostAll(files[..i])
    {
      var ino := i + 1;
      if ino >= img.sb.inodeCount { return false; }
      ghost var v := img.V();
      CostStep(files, i);
      CostMono(files, i + 1);
      ok := StoreFile(img, ino, TYPE_FILE, files[i].data);
      if !ok { return; }
      GrownSound(img.sb, v, ino, img.V());
      GrownUsed(img.sb, v, ino, img.V());
      HoldsKept(v, img.V(), ino, files, i);
      root := root + Encode(Entry(ino, FILE8, files[i].name));
      NextRootEntry(files, i);
    }
    assert files[..|files|] == files;
    ghost var v := img.V();
    ok := StoreFile(img, ROOT, TYPE_DIR, root);
    if !ok { return; }
    GrownSound(img.sb, v, ROOT, img.V());
    GrownUsed(img.sb, v, ROOT, img.V());
    HoldsKept(v, img.V(), ROOT, files, |files|);
    assert img.V().inoUsed == Below(|files| + 1);
    RootTree(img.sb, img.V(), files);
  }

  /** What fits: an inode for each file besides the root, files and root no larger than an
      inode can map, and blocks for all of them. */
  lemma FitsMeans(sb: Superblock, files: seq<HostFile>)
    ensures Fits(sb, files) <==>
      && |files| < sb.inodeCount && (forall i :: 0 <= i < |files| ==> |files[i].data| <= 138 * 512)
      && RootSize(files) <= 138 * 512 && CostAll(files) + Cost(RootSize(files)) <= sb.total - sb.dataStart
  {
    hide CostAll, Cost, RootSize;
  }

  lemma NoCost(files: seq<HostFile>)
    ensures CostAll(files[..0]) == 0 && RootSize(files[..0]) == 0
  {
  }

  lemma LayoutOrder(img: Image)
    requires img.Valid()
    ensures img.sb.dataStart <= img.sb.total
  {
  }

  lemma GrownUsed(sb: Superblock, v: Vol, i: nat, v': Vol)
    requires Grown(sb, v, i, v')
    ensures v'.inoUsed == v.inoUsed + {i}
  {
  }

  lemma BlankSound(sb: Superblock, v: Vol)
    requires Layout(sb) && WellSized(sb, v) && v.blkUsed == Below(sb.dataStart) && v.inoUsed == {}
    ensures Sound(sb, v) && NoLeak(sb, v)
  {
  }

  lemma NoRootEntries(files: seq<HostFile>)
    ensures RootEntries(files[..0]) == [] && EncodeAll([]) == []
  {
  }

  lemma NextRootEntry(files: seq<HostFile>, i: nat)
    requires i < |files| && i + 1 < 0x1_0000_0000 && ValidEntries(RootEntries(files[..i])) && ValidName(files[i].name)
    ensures ValidEntries(RootEntries(files[..i + 1]))
    ensures EncodeAll(RootEntries(files[..i + 1])) == EncodeAll(RootEntries(files[..i]))
              + Encode(Entry(i + 1, FILE8, files[i].name))
  {
    hide Encode, EncodeAll, ValidName;
    var e := Entry(i + 1, FILE8, files[i].name);
    assert RootEntries(files[..i + 1]) == RootEntries(files[..i]) + [e];
    EncodeAllConcat(RootEntries(files[..i]), [e]);
    EncodeOne(e);
  }

  lemma RootTree(sb: Superblock, v: Vol, files: seq<HostFile>)
    requires Sound(sb, v) && |files| < 0x1_0000_0000 - 1 && v.inoUsed == Below(|files| + 1)
    requires HoldsAll(v, files, |files|) && ValidEntries(RootEntries(files))
    requires Holds(v, ROOT, TYPE_DIR, EncodeAll(RootEntries(files)))
    requires forall i :: 0 <= i < |files| ==> !IsDots(files[i].name)
    ensures FsInv(sb, v) <==> UniqueNames(RootEntries(files))
  {
    hide Sound, Encode, EncodeAll, Parse, FileAt, Content;
    var es := RootEntries(files);
    ParseEncodeAll(es);
    assert DirFile(FileAt(v, ROOT)) && EntriesOf(FileAt(v, ROOT)) == es;
    forall i | i in v.inoUsed ensures NodeOk(v, i) && (i != ROOT ==> v.inodes[i].typ == TYPE_FILE) {
      if i != ROOT { assert HoldsFile(v, files[i - 1], i); }
    }
    var ns := NamesOf(v);
    assert ns.dirs == map[ROOT := es];
    if UniqueNames(es) {
      StarTree(ns, es, files);
    }
    TreeUnique(ns);
  }

  lemma TreeUnique(ns: Names)
    ensures Tree(ns) ==> ROOT in ns.dirs && UniqueNames(ns.dirs[ROOT])
  {
  }

  lemma StarTree(ns: Names, es: seq<Entry>, files: seq<HostFile>)
    requires |files| < 0x1_0000_0000 && es == RootEntries(files) && ns == Names(Below(|files| + 1), map[ROOT := es])
    requires UniqueNames(es) && ValidEntries(es) && forall i :: 0 <= i < |files| ==> !IsDots(files[i].name)
    ensures Tree(ns)
  {
    hide IsDots;
    var par := map i: nat | i in ns.used && i != ROOT :: ROOT;
    var depth := map i: nat | i in ns.used :: if i == ROOT then 0 else 1;
    forall c: nat | c in par ensures exists i: nat :: Link(ns, par[c], i, c) { assert Link(ns, ROOT, c - 1, c); }
    assert TreeBy(ns, par, depth);
  }
}
