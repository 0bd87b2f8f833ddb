/** The lowest layer of kernel/fs/kfs.c: the block device, the two bitmap caches
    with their write-through, the inode table, and the allocators. Every method
    is specified by what it does to the volume `V()` that the disk denotes. */
module KfsDevice {
  import opened Bits
  import opened KfsFormat

  /** Return codes; the kernel returns 0 or a negative errno. */
  datatype Status = OK | ENOENT | EINVAL | ENOSPC | EFBIG | ENOTDIR | EISDIR | EEXIST | ENOTEMPTY | ENOMEM

  /** The cached bitmap equals the sectors it was loaded from. */
  ghost predicate Synced(disk: Disk, start: nat, cache: seq<U8>)
  {
    forall s :: 0 <= s < |cache| / 512 && start + s < |disk| ==> disk[start + s] == cache[512 * s..512 * s + 512]
  }

  /** The image carries the superblock `sb`. */
  ghost predicate Formatted(sb: Superblock, disk: Disk)
    requires Layout(sb) && |disk| == sb.total
  {
    WordsOf(disk[SUPERBLOCK_BLK])[0] == MAGIC && SuperblockOf(disk[SUPERBLOCK_BLK]) == sb
  }

  /** Block `i` is not marked in a synced cache exactly when it is not marked on disk. */
  lemma SyncedBit(disk: Disk, start: nat, cache: seq<U8>, i: nat)
    requires Synced(disk, start, cache)
    requires |cache| % 512 == 0 && i / 8 < |cache| && start + |cache| / 512 <= |disk|
    ensures start + i / 8 / 512 < |disk|
    ensures Bit(cache[i / 8], i % 8) == BitAt(disk, start, i)
  {
    var s := i / 8 / 512;
    assert disk[start + s] == cache[512 * s..512 * s + 512];
    assert cache[512 * s..512 * s + 512][i / 8 % 512] == cache[i / 8];
  }

  /** A cache filled byte by byte from the sectors at `start` is synced. */
  lemma Loaded(disk: Disk, start: nat, cache: seq<U8>)
    requires |cache| % 512 == 0 && start + |cache| / 512 <= |disk|
    requires forall i :: 0 <= i < |cache| ==> cache[i] == disk[start + i / 512][i % 512]
    ensures Synced(disk, start, cache)
  {
    forall s | 0 <= s < |cache| / 512 ensures disk[start + s] == cache[512 * s..512 * s + 512] {
      var sec := cache[512 * s..512 * s + 512];
      forall j | 0 <= j < 512 ensures disk[start + s][j] == sec[j] {
        assert sec[j] == cache[512 * s + j];
        assert (512 * s + j) / 512 == s && (512 * s + j) % 512 == j;
      }
    }
  }

  class Kfs {
    const sb: Superblock
    const disk: array<Block>
    const blockBitmap: array<U8>
    const inodeBitmap: array<U8>

    ghost predicate Valid()
      reads disk, blockBitmap, inodeBitmap
      ensures Valid() ==> Layout(sb)
    {
      && Layout(sb)
      && disk.Length == sb.total
      && blockBitmap != inodeBitmap
      && blockBitmap.Length == 512 * sb.bbBlks
      && inodeBitmap.Length == 512 * sb.ibBlks
      && Formatted(sb, disk[..])
      && Synced(disk[..], sb.bbStart, blockBitmap[..])
      && Synced(disk[..], sb.ibStart, inodeBitmap[..])
    }

    /** The volume the disk denotes. */
    ghost function V(): (v: Vol)
      requires Valid()
      reads disk, blockBitmap, inodeBitmap
      ensures WellSized(sb, v)
    {
      VolOf(sb, disk[..])
    }

    /** kfs_mount after the superblock has been read and accepted: allocate the
        caches and load them from the bitmap sectors. */
    constructor (sb: Superblock, disk: array<Block>)
      requires Layout(sb) && disk.Length == sb.total && Formatted(sb, disk[..])
      ensures this.sb == sb && this.disk == disk && fresh(blockBitmap) && fresh(inodeBitmap)
      ensures Valid() && V() == VolOf(sb, disk[..]) && disk[..] == old(disk[..])
    {
      hide VolOf, Formatted;
      this.sb := sb;
      this.disk := disk;
      var bb := new U8[512 * sb.bbBlks](
        i requires 0 <= i < 512 * sb.bbBlks reads disk => disk[sb.bbStart + i / 512][i % 512]);
      var ib := new U8[512 * sb.ibBlks](
        i requires 0 <= i < 512 * sb.ibBlks reads disk => disk[sb.ibStart + i / 512][i % 512]);
      blockBitmap := bb;
      inodeBitmap := ib;
      new;
      Loaded(disk[..], sb.bbStart, bb[..]);
      Loaded(disk[..], sb.ibStart, ib[..]);
    }

    // ----------------------------------------------------- block device

    method ReadBlock(b: nat) returns (buf: Block)
      requires Valid() && sb.dataStart <= b < sb.total
      ensures buf == V().data[b]
    {
      buf := disk[b];
    }

    method WriteBlock(b: nat, buf: Block)
      requires Valid() && sb.dataStart <= b < sb.total
      modifies disk
      ensures Valid() && V() == old(V()).(data := old(V()).data[b := buf])
    {
      hide VolOf, Synced, Formatted;
      StoreData(sb, disk[..], b, buf);
      MetadataKept(sb, disk[..], b, buf, blockBitmap[..], inodeBitmap[..]);
      disk[b] := buf;
      assert disk[..] == old(disk[..])[b := buf];
    }

    // ---------------------------------------------------------- bitmaps

    method BlockInUse(i: nat) returns (used: bool)
      requires Valid() && i < sb.total
      ensures used == (i in V().blkUsed)
    {
      hide Synced, Formatted, Bit, SetBit, Inodes, Data;
      SyncedBit(disk[..], sb.bbStart, blockBitmap[..], i);
      used := Bit(blockBitmap[i / 8], i % 8);
    }

    method InodeInUse(i: nat) returns (used: bool)
      requires Valid() && i < sb.inodeCount
      ensures used == (i in V().inoUsed)
    {
      hide Synced, Formatted, Bit, SetBit, Inodes, Data;
      SyncedBit(disk[..], sb.ibStart, inodeBitmap[..], i);
      used := Bit(inodeBitmap[i / 8], i % 8);
    }

    /** Set or clear a bit of the block bitmap and write it through. */
    method MarkBlock(i: nat, on: bool)
      requires Valid() && i < sb.total
      modifies disk, blockBitmap
      ensures Valid()
      ensures V() == old(V()).(blkUsed := if on then old(V()).blkUsed + {i} else old(V()).blkUsed - {i})
    {
      hide VolOf, BitAt, SetBit, Flip, Synced, Formatted;
      ghost var was := disk[..];
      FlipBlockBit(sb, was, i, on);
      WriteThrough(disk, sb.bbStart, blockBitmap, i, on);
      SyncedElsewhere(was, sb.bbStart, i, on, sb.ibStart, inodeBitmap[..]);
      FormattedElsewhere(sb, was, sb.bbStart, i, on);
    }

    /** Set or clear a bit of the inode bitmap and write it through. */
    method MarkInode(i: nat, on: bool)
      requires Valid() && i < sb.inodeCount
      modifies disk, inodeBitmap
      ensures Valid()
      ensures V() == old(V()).(inoUsed := if on then old(V()).inoUsed + {i} else old(V()).inoUsed - {i})
    {
      hide VolOf, BitAt, SetBit, Flip, Synced, Formatted;
      ghost var was := disk[..];
      FlipInodeBit(sb, was, i, on);
      WriteThrough(disk, sb.ibStart, inodeBitmap, i, on);
      SyncedElsewhere(was, sb.ibStart, i, on, sb.bbStart, blockBitmap[..]);
      FormattedElsewhere(sb, was, sb.ibStart, i, on);
    }

    // ------------------------------------------------------ inode table

    method ReadInode(ino: nat) returns (st: Status, n: Inode)
      requires Valid()
      ensures st == if ino >= sb.inodeCount then EINVAL else if ino !in V().inoUsed then ENOENT else OK
      ensures st == OK ==> n == V().inodes[ino]
    {
      n := Inode(0, 0, NoDirect, 0, 0, 0, 0);
      if ino >= sb.inodeCount { return EINVAL, n; }
      var used := InodeInUse(ino);
      if !used { return ENOENT, n; }
      var buf := disk[sb.itStart + ino / 8];
      return OK, GetInode(buf, ino % 8);
    }

    method WriteInode(ino: nat, n: Inode) returns (st: Status)
      requires Valid()
      modifies disk
      ensures Valid()
      ensures st == if ino >= sb.inodeCount then EINVAL else OK
      ensures V() == if st == OK then old(V()).(inodes := old(V()).inodes[ino := n]) else old(V())
    {
      hide VolOf, Synced, Formatted, PutInode;
      if ino >= sb.inodeCount { return EINVAL; }
      var buf := disk[sb.itStart + ino / 8];
      StoreInode(sb, disk[..], ino, n);
      MetadataKept(sb, disk[..], sb.itStart + ino / 8, PutInode(buf, ino % 8, n), blockBitmap[..], inodeBitmap[..]);
      disk[sb.itStart + ino / 8] := PutInode(buf, ino % 8, n);
      assert disk[..] == Store(sb, old(disk[..]), ino, n);
      return OK;
    }

    // ------------------------------------------------------- allocators

    /** kfs_alloc_block: the lowest unmarked block of the data area, marked and
        zeroed; ENOSPC exactly when there is none. */
    method AllocBlock() returns (st: Status, blk: nat)
      requires Valid()
      modifies disk, blockBitmap
      ensures Valid()
      ensures st == OK || st == ENOSPC
      ensures st == ENOSPC ==> V() == old(V()) && forall j :: sb.dataStart <= j < sb.total ==> j in V().blkUsed
      ensures st == OK ==>
        && sb.dataStart <= blk < sb.total
        && blk !in old(V()).blkUsed
        && (forall j :: sb.dataStart <= j < blk ==> j in old(V()).blkUsed)
        && V() == old(V()).(blkUsed := old(V()).blkUsed + {blk}, data := old(V()).data[blk := ZeroBlock()])
    {
      hide V, VolOf, Synced, Formatted;
      blk := 0;
      for i := sb.dataStart to sb.total
        invariant Valid() && V() == old(V())
        invariant forall j :: sb.dataStart <= j < i ==> j in V().blkUsed
      {
        var used := BlockInUse(i);
        if !used {
          MarkBlock(i, true);
          WriteBlock(i, ZeroBlock());
          return OK, i;
        }
      }
      return ENOSPC, 0;
    }

    /** kfs_free_block */
    method FreeBlock(blk: nat) returns (st: Status)
      requires Valid()
      modifies disk, blockBitmap
      ensures Valid()
      ensures st == if blk < sb.dataStart || blk >= sb.total then EINVAL else OK
      ensures V() == if st == OK then old(V()).(blkUsed := old(V()).blkUsed - {blk}) else old(V())
    {
      if blk < sb.dataStart || blk >= sb.total { return EINVAL; }
      MarkBlock(blk, false);
      return OK;
    }

    /** kfs_alloc_inode: the lowest unmarked inode other than the root, marked
        and initialised; ENOSPC exactly when there is none. */
    method AllocInode(typ: U32) returns (st: Status, ino: nat)
      requires Valid()
      modifies disk, inodeBitmap
      ensures Valid()
      ensures st == OK || st == ENOSPC
      ensures st == ENOSPC ==> V() == old(V()) && forall j :: 1 <= j < sb.inodeCount ==> j in V().inoUsed
      ensures st == OK ==>
        && 1 <= ino < sb.inodeCount
        && ino !in old(V()).inoUsed
        && (forall j :: 1 <= j < ino ==> j in old(V()).inoUsed)
        && V() == old(V()).(inoUsed := old(V()).inoUsed + {ino},
                            inodes := old(V()).inodes[ino := Inode(0, typ, NoDirect, 0, 1, 0, 0)])
    {
      hide V, VolOf, Synced, Formatted;
      ino := 0;
      for i := 1 to sb.inodeCount
        invariant Valid() && V() == old(V())
        invariant forall j :: 1 <= j < i ==> j in V().inoUsed
      {
        var used := InodeInUse(i);
        if !used {
          MarkInode(i, true);
          var r := WriteInode(i, Inode(0, typ, NoDirect, 0, 1, 0, 0));
          return OK, i;
        }
      }
      return ENOSPC, 0;
    }

    /** kfs_free_inode */
    method FreeInode(ino: nat) returns (st: Status)
      requires Valid()
      modifies disk, inodeBitmap
      ensures Valid()
      ensures st == if ino == 0 || ino >= sb.inodeCount then EINVAL else OK
      ensures V() == if st == OK then old(V()).(inoUsed := old(V()).inoUsed - {ino}) else old(V())
    {
      if ino == 0 || ino >= sb.inodeCount { return EINVAL; }
      MarkInode(ino, false);
      return OK;
    }
  }

  /** `bitmap[byte_idx] |= 1 << bit_idx` (or `&= ~`) on the cache, followed by
      the write of the sector that holds the byte: the disk changes by exactly
      that bit and stays equal to the cache. */
  method WriteThrough(disk: array<Block>, start: nat, cache: array<U8>, i: nat, on: bool)
    requires cache.Length % 512 == 0 && i / 8 < cache.Length && start + cache.Length / 512 <= disk.Length
    requires Synced(disk[..], start, cache[..])
    modifies disk, cache
    ensures disk[..] == Flip(old(disk[..]), start, i, on)
    ensures cache[..] == old(cache[..])[i / 8 := SetBit(old(cache[i / 8]), i % 8, on)]
    ensures Synced(disk[..], start, cache[..])
  {
    hide Bit;
    var byteIdx := i / 8;
    var sec := byteIdx / 512;
    SyncedAfterMark(disk[..], start, cache[..], i, on);
    cache[byteIdx] := SetBit(cache[byteIdx], i % 8, on);
    assert cache[..] == old(cache[..])[i / 8 := SetBit(old(cache[i / 8]), i % 8, on)];
    disk[start + sec] := cache[..][512 * sec..512 * sec + 512];
    assert disk[..] == Flip(old(disk[..]), start, i, on);
  }

  /** Writing a block behind the bitmaps disturbs neither them nor the superblock. */
  lemma MetadataKept(sb: Superblock, disk: Disk, s: nat, buf: Block, bb: seq<U8>, ib: seq<U8>)
    requires Layout(sb) && |disk| == sb.total && sb.itStart <= s < sb.total
    requires |bb| == 512 * sb.bbBlks && |ib| == 512 * sb.ibBlks
    requires Formatted(sb, disk) && Synced(disk, sb.bbStart, bb) && Synced(disk, sb.ibStart, ib)
    ensures Formatted(sb, disk[s := buf]) && Synced(disk[s := buf], sb.bbStart, bb)
    ensures Synced(disk[s := buf], sb.ibStart, ib)
  {
  }

  lemma SyncedElsewhere(disk: Disk, start: nat, i: nat, on: bool, other: nat, cache: seq<U8>)
    requires start + i / 8 / 512 < |disk| && other + |cache| / 512 <= |disk|
    requires start + i / 8 / 512 < other || other + |cache| / 512 <= start
    requires Synced(disk, other, cache)
    ensures Synced(Flip(disk, start, i, on), other, cache)
  {
  }

  lemma FormattedElsewhere(sb: Superblock, disk: Disk, start: nat, i: nat, on: bool)
    requires Layout(sb) && |disk| == sb.total && SUPERBLOCK_BLK < start && start + i / 8 / 512 < |disk|
    requires Formatted(sb, disk)
    ensures Formatted(sb, Flip(disk, start, i, on))
  {
  }

  /** Writing the sector that holds a flipped bit keeps cache and disk equal,
      and changes the disk by exactly that bit. */
  lemma SyncedAfterMark(disk: Disk, start: nat, cache: seq<U8>, i: nat, on: bool)
    requires Synced(disk, start, cache)
    requires |cache| % 512 == 0 && i / 8 < |cache| && start + |cache| / 512 <= |disk|
    ensures start + i / 8 / 512 < |disk|
    ensures var cache' := cache[i / 8 := SetBit(cache[i / 8], i % 8, on)];
            var sec := i / 8 / 512;
            Synced(Flip(disk, start, i, on), start, cache')
            && cache'[512 * sec..512 * sec + 512] == Flip(disk, start, i, on)[start + sec]
  {
    hide Bit;
    var cache' := cache[i / 8 := SetBit(cache[i / 8], i % 8, on)];
    var disk' := Flip(disk, start, i, on);
    var sec := i / 8 / 512;
    assert disk[start + sec] == cache[512 * sec..512 * sec + 512];
    assert disk[start + sec][i / 8 % 512] == cache[i / 8];
    assert cache'[512 * sec..512 * sec + 512] == disk[start + sec][i / 8 % 512 := SetBit(cache[i / 8], i % 8, on)];
    forall s | 0 <= s < |cache| / 512 && start + s < |disk|
      ensures disk'[start + s] == cache'[512 * s..512 * s + 512]
    {
      if s != sec {
        assert cache'[512 * s..512 * s + 512] == cache[512 * s..512 * s + 512];
      }
    }
  }
}
