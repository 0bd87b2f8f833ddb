/** File contents as byte sequences, and what writes do to them. */
module KfsContent {
  import opened Bits
  import opened KfsFormat
  import opened KfsPages

  /** A file without holes: the mapped pages are exactly those that its length
      needs, and everything past the end is zero. */
  ghost predicate Solid(f: FileState)
  {
    && |f.pages| == MAX_BLOCKS
    && f.size <= MAX_SIZE
    && f.mapped == Below(BlocksFor(f.size))
    && ZeroTail(f)
  }

  /** No indirect block is kept without need. */
  predicate Tight(n: Inode)
  {
    n.indirect != 0 ==> BlocksFor(n.size) > DIRECT
  }

  ghost predicate ZeroTail(f: FileState)
    requires |f.pages| == MAX_BLOCKS
  {
    forall p: nat :: f.size <= p < MAX_SIZE ==> ByteOf(f.pages, p) == 0
  }

  function Content(f: FileState): (r: seq<U8>)
    requires |f.pages| == MAX_BLOCKS && f.size <= MAX_SIZE
    ensures |r| == f.size
  {
    Bytes(f.pages, f.size)
  }

  /** `old[..off] + bytes + old[off + |bytes|..]`, with zeros between the end of
      `old` and `off` when `off` lies past the end. */
  function Overwrite(was: seq<U8>, off: nat, bytes: seq<U8>): seq<U8>
  {
    (if off <= |was| then was[..off] else was + seq(off - |was|, _ => 0))
    + bytes
    + (if off + |bytes| <= |was| then was[off + |bytes|..] else [])
  }

  lemma ByteOfPatch(pages: seq<Block>, off: nat, bytes: seq<U8>, p: nat)
    requires |pages| == MAX_BLOCKS && p < MAX_SIZE
    ensures ByteOf(Patch(pages, off, bytes), p) == if off <= p < off + |bytes| then bytes[p - off] else ByteOf(pages, p)
  {
    assert 512 * (p / 512) + p % 512 == p;
  }

  /** A write of `bytes` at `off` turns the content into `Overwrite`, whether or
      not `off` lies past the end. */
  lemma PutContent(f: FileState, off: nat, bytes: seq<U8>)
    requires |f.pages| == MAX_BLOCKS && f.size <= MAX_SIZE && ZeroTail(f)
    requires bytes != [] && off + |bytes| <= MAX_SIZE
    ensures Content(Put(f, off, bytes)) == Overwrite(Content(f), off, bytes)
    ensures ZeroTail(Put(f, off, bytes))
  {
    hide Patch, ByteOf;
    var f' := Put(f, off, bytes);
    var was, now := Content(f), Overwrite(Content(f), off, bytes);
    forall p: nat | p < MAX_SIZE
      ensures ByteOf(f'.pages, p) == if off <= p < off + |bytes| then bytes[p - off] else ByteOf(f.pages, p)
    {
      ByteOfPatch(f.pages, off, bytes, p);
    }
    forall p | 0 <= p < f'.size ensures Content(f')[p] == now[p] {
      assert p < f.size ==> was[p] == ByteOf(f.pages, p);
    }
  }

  /** A write makes a hole exactly when it starts past the block that follows
      the last one. */
  lemma PutSolid(f: FileState, off: nat, bytes: seq<U8>)
    requires Solid(f) && bytes != [] && off + |bytes| <= MAX_SIZE
    ensures Solid(Put(f, off, bytes)) <==> off / 512 <= BlocksFor(f.size)
  {
    hide Patch, ByteOf, Bytes;
    PutContent(f, off, bytes);
    var f' := Put(f, off, bytes);
    if off / 512 <= BlocksFor(f.size) {
      forall lb: nat ensures lb in f'.mapped <==> lb < BlocksFor(f'.size) {
        assert lb in Touched(off, |bytes|) <==> Touches(off, |bytes|, lb);
      }
      assert f'.mapped == Below(BlocksFor(f'.size));
    } else {
      var lb := BlocksFor(f.size);
      assert !Touches(off, |bytes|, lb);
      assert lb !in f'.mapped && lb in Below(BlocksFor(f'.size));
    }
  }
}
