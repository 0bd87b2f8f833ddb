/** Directory files: reading one whole, and kfs_remove_dirent
    (kernel/fs/kfs.c:486-541), which closes the gap in place, releases the
    trailing blocks and rewrites the rest. */
module KfsDir {
  import opened Bits
  import opened KfsFormat
  import opened KfsDevice
  import opened KfsPages
  import opened KfsFile
  import opened KfsContent

  /** kfs_vnode_read of a whole file from position 0, as the directory
      operations call it. */
  method ReadAll(k: Kfs, n: Inode) returns (bytes: seq<U8>)
    requires k.Valid() && Owns(k.sb, k.V(), n) && Solid(FileOf(n, k.V().data)) && n.size > 0
    ensures bytes == Content(FileOf(n, k.V().data))
  {
    hide Kfs.V, Kfs.Valid, Owns, Pages, Mapped, Bytes;
    var st;
    st, bytes := ReadLoop(k, n, 0, n.size);
    assert Touched(0, n.size) <= Below(BlocksFor(n.size)) by {
      forall lb | lb in Touched(0, n.size) ensures lb in Below(BlocksFor(n.size)) {
        assert Touches(0, n.size, lb);
      }
    }
    assert Slice(Pages(n, k.V().data), 0, n.size) == Bytes(Pages(n, k.V().data), n.size);
  }

  // ------------------------------------------------------------ trimming

  lemma ClearDirect(sb: Superblock, v: Vol, n: Inode, lb: nat)
    requires Layout(sb) && WellSized(sb, v) && Owns(sb, v, n)
    requires lb < DIRECT && n.direct[lb] != 0
    ensures var v' := v.(blkUsed := v.blkUsed - {n.direct[lb]});
            var n' := n.(direct := n.direct[lb := 0]);
            && Step(sb, v, n, v', n')
            && Pages(n', v'.data) == Pages(n, v.data)[lb := ZeroBlock()]
            && Mapped(n', v'.data) == Mapped(n, v.data) - {lb}
  {
    hide WordsOf;
    var v' := v.(blkUsed := v.blkUsed - {n.direct[lb]});
    var n' := n.(direct := n.direct[lb := 0]);
    assert Ptr(n, v.data, lb) == n.direct[lb];
    RemovePointer(sb, v, n, v', n', lb);
  }

  lemma ClearEntry(sb: Superblock, v: Vol, n: Inode, j: nat)
    requires Layout(sb) && WellSized(sb, v) && Owns(sb, v, n)
    requires n.indirect != 0 && n.indirect in v.data && j < 128 && Ptr(n, v.data, j + 11) != 0
    ensures var v' := v.(blkUsed := v.blkUsed - {Ptr(n, v.data, j + 11)},
                         data := v.data[n.indirect := Pack(WordsOf(v.data[n.indirect])[j := 0])]);
            && Step(sb, v, n, v', n)
            && Pages(n, v'.data) == Pages(n, v.data)[j + 10 := ZeroBlock()]
            && Mapped(n, v'.data) == Mapped(n, v.data) - {j + 10}
  {
    var w := WordsOf(v.data[n.indirect])[j := 0];
    WordsOfPack(w);
    hide WordsOf, Pack;
    var v' := v.(blkUsed := v.blkUsed - {Ptr(n, v.data, j + 11)}, data := v.data[n.indirect := Pack(w)]);
    RemovePointer(sb, v, n, v', n, j + 11);
  }

  lemma ClearIndirect(sb: Superblock, v: Vol, n: Inode)
    requires Layout(sb) && WellSized(sb, v) && Owns(sb, v, n)
    requires n.indirect != 0 && forall lb :: lb in Mapped(n, v.data) ==> lb < DIRECT
    ensures var v' := v.(blkUsed := v.blkUsed - {n.indirect});
            var n' := n.(indirect := 0);
            && Step(sb, v, n, v', n')
            && Pages(n', v'.data) == Pages(n, v.data)
            && Mapped(n', v'.data) == Mapped(n, v.data)
  {
    hide WordsOf;
    var v' := v.(blkUsed := v.blkUsed - {n.indirect});
    var n' := n.(indirect := 0);
    forall s: nat | 11 <= s < SLOTS ensures Ptr(n, v.data, s) == 0 {
      assert s - 1 !in Mapped(n, v.data) && SlotOf(s - 1) == s;
    }
    RemovePointer(sb, v, n, v', n', IND_SLOT);
  }

  /** One turn of the trimming loop: release page `b` if it is mapped. */
  method TrimOne(k: Kfs, n: Inode, b: nat) returns (n': Inode)
    requires k.Valid() && Owns(k.sb, k.V(), n) && b < MAX_BLOCKS
    modifies k.disk, k.blockBitmap
    ensures k.Valid() && Step(k.sb, old(k.V()), n, k.V(), n')
    ensures n' == n.(direct := n'.direct, indirect := n'.indirect)
    ensures Mapped(n', k.V().data) == Mapped(n, old(k.V()).data) - {b}
    ensures Pages(n', k.V().data) == Pages(n, old(k.V()).data)[b := ZeroBlock()]
  {
    hide Kfs.V, Kfs.Valid, Owns, Step, Pages, WordsOf, Pack;
    ghost var v := k.V();
    n' := n;
    StepRefl(k.sb, v, n);
    if !IsMapped(n, v.data, b) { UnmappedPage(n, v.data, b); }
    if b < DIRECT {
      if n.direct[b] != 0 {
        OwnedPtr(k.sb, v, n, b);
        ClearDirect(k.sb, v, n, b);
        var r := k.FreeBlock(n.direct[b]);
        n' := n.(direct := n.direct[b := 0]);
      }
    } else {
      if n.indirect != 0 {
        OwnedPtr(k.sb, v, n, IND_SLOT);
        var buf := k.ReadBlock(n.indirect);
        var ind := WordsOf(buf);
        if ind[b - 10] != 0 {
          OwnedPtr(k.sb, v, n, b + 1);
          ClearEntry(k.sb, v, n, b - 10);
          var r := k.FreeBlock(ind[b - 10]);
          ind := ind[b - 10 := 0];
          k.WriteBlock(n.indirect, Pack(ind));
        }
      }
    }
  }

  lemma UnmappedPage(n: Inode, data: DataMap, b: nat)
    requires b < MAX_BLOCKS && !IsMapped(n, data, b)
    ensures Pages(n, data)[b := ZeroBlock()] == Pages(n, data)
    ensures b !in Mapped(n, data)
  {
    hide Ptr;
  }

  /** Release pages `new..old`, then the indirect block if no page needs it. */
  method TrimBlocks(k: Kfs, n: Inode, newBlocks: nat, oldBlocks: nat) returns (n': Inode)
    requires k.Valid() && Owns(k.sb, k.V(), n)
    requires newBlocks <= oldBlocks <= MAX_BLOCKS && Mapped(n, k.V().data) == Below(oldBlocks)
    modifies k.disk, k.blockBitmap
    ensures k.Valid() && Step(k.sb, old(k.V()), n, k.V(), n')
    ensures n' == n.(direct := n'.direct, indirect := n'.indirect)
    ensures Mapped(n', k.V().data) == Below(newBlocks)
    ensures forall lb: nat :: lb < MAX_BLOCKS ==>
      Pages(n', k.V().data)[lb] == if newBlocks <= lb < oldBlocks then ZeroBlock() else Pages(n, old(k.V()).data)[lb]
    ensures newBlocks <= DIRECT ==> n'.indirect == 0
  {
    hide Kfs.V, Kfs.Valid, Owns, Step, Pages, Mapped, Blocks, Distinct, Ptr;
    ghost var v := k.V();
    n' := n;
    StepRefl(k.sb, v, n);
    for b := newBlocks to oldBlocks
      invariant k.Valid() && Step(k.sb, v, n, k.V(), n')
      invariant n' == n.(direct := n'.direct, indirect := n'.indirect)
      invariant forall lb :: lb in Mapped(n', k.V().data) <==> lb in Below(oldBlocks) && !(newBlocks <= lb < b)
      invariant forall lb: nat :: lb < MAX_BLOCKS ==>
        Pages(n', k.V().data)[lb] == if newBlocks <= lb < b then ZeroBlock() else Pages(n, v.data)[lb]
    {
      ghost var v1, n1 := k.V(), n';
      StepOwns(k.sb, v, n, v1, n1);
      n' := TrimOne(k, n', b);
      StepTrans(k.sb, v, n, v1, n1, k.V(), n');
    }
    assert Mapped(n', k.V().data) == Below(newBlocks);
    if newBlocks <= DIRECT && n'.indirect != 0 {
      ghost var v1, n1 := k.V(), n';
      StepOwns(k.sb, v, n, v1, n1);
      assert n'.indirect == Ptr(n', v1.data, IND_SLOT) by { IndPtr(n', v1.data); }
      OwnedPtr(k.sb, v1, n', IND_SLOT);
      ClearIndirect(k.sb, v1, n');
      var r := k.FreeBlock(n'.indirect);
      n' := n'.(indirect := 0);
      StepTrans(k.sb, v, n, v1, n1, k.V(), n');
    }
  }

  // ----------------------------------------------------------- rewriting

  /** Page `b` of a file with content `data`: its bytes, then zeros. */
  function PageOf(data: seq<U8>, b: nat): Block
    requires 512 * b < |data|
  {
    var chunk := if |data| - 512 * b > 512 then 512 else |data| - 512 * b;
    data[512 * b..512 * b + chunk] + seq(512 - chunk, _ => 0)
  }

  /** Rewrite every page with the bytes of `data`. */
  method StoreBlocks(k: Kfs, n: Inode, data: seq<U8>)
    requires k.Valid() && Owns(k.sb, k.V(), n)
    requires |data| <= MAX_SIZE && Mapped(n, k.V().data) == Below(BlocksFor(|data|))
    modifies k.disk
    ensures k.Valid() && Step(k.sb, old(k.V()), n, k.V(), n)
    ensures Mapped(n, k.V().data) == Below(BlocksFor(|data|))
    ensures forall lb: nat :: lb < MAX_BLOCKS ==>
      Pages(n, k.V().data)[lb] == if lb < BlocksFor(|data|) then PageOf(data, lb) else Pages(n, old(k.V()).data)[lb]
  {
    hide Kfs.V, Kfs.Valid, Owns, Step, Pages, Blocks, Distinct, Ptr, PageOf;
    ghost var v := k.V();
    StepRefl(k.sb, v, n);
    for b := 0 to BlocksFor(|data|)
      invariant k.Valid() && Step(k.sb, v, n, k.V(), n)
      invariant Mapped(n, k.V().data) == Below(BlocksFor(|data|))
      invariant forall lb: nat :: lb < MAX_BLOCKS ==>
        Pages(n, k.V().data)[lb] == if lb < b then PageOf(data, lb) else Pages(n, v.data)[lb]
    {
      ghost var v1 := k.V();
      StepOwns(k.sb, v, n, v1, n);
      assert b in Mapped(n, v1.data);
      var st, phys := MapBlock(k, n, b);
      OwnedPtr(k.sb, v1, n, SlotOf(b));
      StorePage(k.sb, v1, n, b, PageOf(data, b));
      k.WriteBlock(phys, PageOf(data, b));
      StepTrans(k.sb, v, n, v1, n, k.V(), n);
    }
  }

  lemma PageBytes(pages: seq<Block>, data: seq<U8>)
    requires |pages| == MAX_BLOCKS && |data| <= MAX_SIZE
    requires forall lb: nat :: lb < MAX_BLOCKS ==>
               pages[lb] == if lb < BlocksFor(|data|) then PageOf(data, lb) else ZeroBlock()
    ensures Bytes(pages, |data|) == data
    ensures forall p: nat :: |data| <= p < MAX_SIZE ==> ByteOf(pages, p) == 0
  {
    forall p: nat | p < MAX_SIZE ensures ByteOf(pages, p) == if p < |data| then data[p] else 0 {
      var b := p / 512;
      if b < BlocksFor(|data|) {
        assert PageOf(data, b)[p % 512] == if p < |data| then data[p] else 0;
      }
    }
  }

  // ------------------------------------------------------ the whole thing

  /** `data` without the `len` bytes at `at`. */
  function Cut(data: seq<U8>, at: nat, len: nat): seq<U8>
    requires at + len <= |data|
  {
    data[..at] + data[at + len..]
  }

  /** kfs_remove_dirent: the directory file loses exactly the record's bytes,
      keeps the rest in order, stays free of holes with everything past its new
      end zero, and the blocks it no longer needs are free. */
  method RemoveDirent(k: Kfs, dirIno: nat, n: Inode, at: nat, reclen: nat, dirData: seq<U8>) returns (st: Status)
    requires k.Valid() && dirIno in k.V().inoUsed && k.V().inodes[dirIno] == n && Owns(k.sb, k.V(), n)
    requires Solid(FileOf(n, k.V().data)) && dirData == Content(FileOf(n, k.V().data))
    requires at + reclen <= |dirData|
    modifies k.disk, k.blockBitmap
    ensures k.Valid() && st == OK
    ensures FileStep(k.sb, old(k.V()), dirIno, k.V())
    ensures Solid(FileOf(k.V().inodes[dirIno], k.V().data)) && Tight(k.V().inodes[dirIno])
    ensures Content(FileOf(k.V().inodes[dirIno], k.V().data)) == Cut(dirData, at, reclen)
    ensures k.V().inodes[dirIno].links == n.links
  {
    hide Kfs.V, Kfs.Valid, Owns, Step, Pages, Blocks, Distinct, Ptr, PageOf, Mapped, Bytes, ByteOf;
    ghost var v := k.V();
    var rest := dirData[..at] + dirData[at + reclen..];
    var n' := TrimBlocks(k, n, BlocksFor(|rest|), BlocksFor(n.size));
    ghost var v1 := k.V();
    StepOwns(k.sb, v, n, v1, n');
    StoreBlocks(k, n', rest);
    ghost var v2 := k.V();
    StepTrans(k.sb, v, n, v1, n', v2, n');
    ghost var n2 := n';
    StepOwns(k.sb, v, n, v2, n2);
    SizeOnly(k.sb, v2, n2, |rest|);
    n' := n'.(size := |rest|);
    StepTrans(k.sb, v, n, v2, n2, v2, n');
    forall lb: nat | BlocksFor(n.size) <= lb < MAX_BLOCKS ensures Pages(n, v.data)[lb] == ZeroBlock() {
      assert lb !in Mapped(n, v.data);
      UnmappedZero(n, v.data, lb);
    }
    PageBytes(Pages(n', v2.data), rest);
    st := k.WriteInode(dirIno, n');
    StepInodes(k.sb, v, n, v2, n');
    assert k.V().(inodes := v.inodes) == v2;
  }

  lemma UnmappedZero(n: Inode, data: DataMap, lb: nat)
    requires lb < MAX_BLOCKS && lb !in Mapped(n, data)
    ensures Pages(n, data)[lb] == ZeroBlock()
  {
    hide Ptr;
  }
}
