/** The global invariant that scripts/kfsck.py checks, and why work on one file
    keeps it for the whole volume. */
module KfsVolume {
  import opened KfsFormat
  import opened KfsPages
  import opened KfsFile

  ghost function BlocksAt(v: Vol, ino: nat): (r: set<nat>)
    requires ino < |v.inodes|
  {
    Blocks(v.inodes[ino], v.data)
  }

  ghost function FileAt(v: Vol, ino: nat): (f: FileState)
    requires ino < |v.inodes|
    ensures |f.pages| == MAX_BLOCKS
  {
    FileOf(v.inodes[ino], v.data)
  }

  /** Metadata is reserved; every block an allocated inode reaches lies in the
      data area, is marked, and is reached exactly once on the whole volume. */
  ghost predicate Sound(sb: Superblock, v: Vol)
  {
    && Layout(sb) && WellSized(sb, v)
    && (forall b: nat :: b < sb.dataStart ==> b in v.blkUsed)
    && (forall i :: i in v.inoUsed ==> Owns(sb, v, v.inodes[i]))
    && (forall i, j :: i in v.inoUsed && j in v.inoUsed && i != j ==> BlocksAt(v, i) !! BlocksAt(v, j))
  }

  ghost predicate Owned(v: Vol, b: nat)
  {
    exists i :: i in v.inoUsed && i < |v.inodes| && b in BlocksAt(v, i)
  }

  /** Every marked block of the data area is reached from an allocated inode. */
  ghost predicate NoLeak(sb: Superblock, v: Vol)
  {
    forall b :: b in v.blkUsed && b >= sb.dataStart ==> Owned(v, b)
  }

  /** Work on one file leaves every other file alone. */
  lemma OtherFile(sb: Superblock, v: Vol, ino: nat, v': Vol, j: nat)
    requires Sound(sb, v) && FileStep(sb, v, ino, v') && WellSized(sb, v')
    requires ino in v.inoUsed && j in v.inoUsed && j != ino
    ensures v'.inodes[j] == v.inodes[j]
    ensures BlocksAt(v', j) == BlocksAt(v, j) && FileAt(v', j) == FileAt(v, j)
    ensures forall s: nat :: s < SLOTS ==> Ptr(v.inodes[j], v'.data, s) == Ptr(v.inodes[j], v.data, s)
  {
    hide Blocks, Pages, Mapped, Distinct, Ptr;
    assert BlocksAt(v, j) !! BlocksAt(v, ino) && BlocksAt(v, j) <= v.blkUsed;
    Frame(v.inodes[j], v.data, v'.data);
  }

  /** Work on one file keeps the volume sound, and leaks nothing unless
      something had leaked before. */
  lemma FileStepSound(sb: Superblock, v: Vol, ino: nat, v': Vol)
    requires Sound(sb, v) && FileStep(sb, v, ino, v') && WellSized(sb, v') && ino in v.inoUsed
    ensures Sound(sb, v')
    ensures NoLeak(sb, v) <==> NoLeak(sb, v')
    ensures forall j :: j in v.inoUsed && j != ino ==>
              BlocksAt(v', j) == BlocksAt(v, j) && FileAt(v', j) == FileAt(v, j)
  {
    hide Blocks, Pages, Mapped, Ptr, Distinct;
    var n, n' := v.inodes[ino], v'.inodes[ino];
    forall j | j in v.inoUsed && j != ino
      ensures BlocksAt(v', j) == BlocksAt(v, j) && FileAt(v', j) == FileAt(v, j)
      ensures Owns(sb, v', v'.inodes[j]) && BlocksAt(v', j) !! BlocksAt(v', ino)
    {
      OtherFile(sb, v, ino, v', j);
      FrameDistinct(sb, v.inodes[j], v.data, v'.data);
      assert BlocksAt(v, j) !! BlocksAt(v, ino) && BlocksAt(v, j) <= v.blkUsed;
      assert BlocksAt(v, j) <= v.blkUsed - BlocksAt(v, ino);
    }
    forall b: nat | b < sb.dataStart ensures b in v'.blkUsed {
      InData(sb, n, v.data, b);
      assert b in v.blkUsed - BlocksAt(v, ino);
    }
    NoLeakKept(sb, v, ino, v');
  }

  lemma InData(sb: Superblock, n: Inode, data: DataMap, b: nat)
    requires Distinct(sb, n, data) && b < sb.dataStart
    ensures b !in Blocks(n, data)
  {
    hide Ptr;
  }

  lemma NoLeakKept(sb: Superblock, v: Vol, ino: nat, v': Vol)
    requires ino in v.inoUsed && v'.inoUsed == v.inoUsed && ino < |v.inodes| == |v'.inodes|
    requires v'.blkUsed - BlocksAt(v', ino) == v.blkUsed - BlocksAt(v, ino)
    requires forall j :: j in v.inoUsed && j != ino && j < |v.inodes| ==> BlocksAt(v', j) == BlocksAt(v, j)
    ensures NoLeak(sb, v) <==> NoLeak(sb, v')
  {
    hide BlocksAt;
    if NoLeak(sb, v) {
      forall b | b in v'.blkUsed && b >= sb.dataStart ensures Owned(v', b) {
        if b !in BlocksAt(v', ino) {
          assert b in v'.blkUsed - BlocksAt(v', ino);
          assert b in v.blkUsed && Owned(v, b);
          var i :| i in v.inoUsed && i < |v.inodes| && b in BlocksAt(v, i);
          assert b in v.blkUsed - BlocksAt(v, ino);
          assert b in BlocksAt(v', i);
        }
      }
    }
    if NoLeak(sb, v') {
      forall b | b in v.blkUsed && b >= sb.dataStart ensures Owned(v, b) {
        if b !in BlocksAt(v, ino) {
          assert b in v.blkUsed - BlocksAt(v, ino);
          assert b in v'.blkUsed - BlocksAt(v', ino);
          assert b in v'.blkUsed && Owned(v', b);
          var i :| i in v'.inoUsed && i < |v'.inodes| && b in BlocksAt(v', i);
          assert b in BlocksAt(v, i);
        }
      }
    }
  }

  /** The failed write that loses its indirect block keeps the volume sound but
      leaves a marked block that no inode reaches. */
  lemma LeakedSound(sb: Superblock, v: Vol, v': Vol)
    requires Sound(sb, v) && Leaked(sb, v, v') && WellSized(sb, v')
    ensures Sound(sb, v') && !NoLeak(sb, v')
    ensures forall j :: j in v.inoUsed ==> BlocksAt(v', j) == BlocksAt(v, j) && FileAt(v', j) == FileAt(v, j)
  {
    hide Blocks, Pages, Mapped, Ptr, Distinct;
    forall j | j in v.inoUsed
      ensures BlocksAt(v', j) == BlocksAt(v, j) && FileAt(v', j) == FileAt(v, j) && Owns(sb, v', v'.inodes[j])
    {
      assert BlocksAt(v, j) <= v.blkUsed;
      Frame(v.inodes[j], v.data, v'.data);
      FrameDistinct(sb, v.inodes[j], v.data, v'.data);
    }
    assert Free(sb, v) != {};
    var b :| b in Free(sb, v);
    assert b in v'.blkUsed && b >= sb.dataStart;
    forall i | i in v'.inoUsed ensures b !in BlocksAt(v', i) {
      assert BlocksAt(v, i) <= v.blkUsed;
    }
  }

  // -------------------------------------------- inodes that come and go

  /** The inodes in `S` and their files are the same in both volumes. */
  ghost predicate Keeps(v: Vol, v': Vol, S: set<nat>)
  {
    |v.inodes| == |v'.inodes|
    && forall j :: j in S && j < |v.inodes| ==> v'.inodes[j] == v.inodes[j] && FileAt(v', j) == FileAt(v, j)
  }

  lemma KeepsTrans(v: Vol, v1: Vol, v2: Vol, S: set<nat>, T: set<nat>)
    requires Keeps(v, v1, S) && Keeps(v1, v2, T)
    ensures Keeps(v, v2, S * T)
  {
    hide FileAt;
  }

  /** `v'` has one more allocated inode, which owns exactly the newly marked blocks. */
  ghost predicate Grown(sb: Superblock, v: Vol, i: nat, v': Vol)
  {
    && i !in v.inoUsed && i < |v.inodes| == |v'.inodes|
    && v'.inoUsed == v.inoUsed + {i} && v'.inodes == v.inodes[i := v'.inodes[i]]
    && Owns(sb, v', v'.inodes[i])
    && v'.blkUsed - BlocksAt(v', i) == v.blkUsed
    && (forall b :: b in v.blkUsed && b in v.data ==> b in v'.data && v'.data[b] == v.data[b])
  }

  lemma GrownSound(sb: Superblock, v: Vol, i: nat, v': Vol)
    requires Sound(sb, v) && Grown(sb, v, i, v') && WellSized(sb, v')
    ensures Sound(sb, v') && Keeps(v, v', v.inoUsed)
    ensures NoLeak(sb, v) <==> NoLeak(sb, v')
    ensures forall j :: j in v.inoUsed ==> BlocksAt(v', j) == BlocksAt(v, j)
  {
    hide Blocks, Pages, Mapped, Ptr, Distinct;
    assert v.blkUsed <= v'.blkUsed && v.blkUsed !! BlocksAt(v', i);
    forall j | j in v.inoUsed
      ensures BlocksAt(v', j) == BlocksAt(v, j) && FileAt(v', j) == FileAt(v, j) && Owns(sb, v', v'.inodes[j])
      ensures BlocksAt(v', j) !! BlocksAt(v', i)
    {
      assert BlocksAt(v, j) <= v.blkUsed;
      Frame(v.inodes[j], v.data, v'.data);
      FrameDistinct(sb, v.inodes[j], v.data, v'.data);
    }
    GrownLeak(sb, v, i, v');
  }

  lemma GrownLeak(sb: Superblock, v: Vol, i: nat, v': Vol)
    requires Grown(sb, v, i, v') && forall j :: j in v.inoUsed && j < |v.inodes| ==> BlocksAt(v', j) == BlocksAt(v, j)
    ensures NoLeak(sb, v) <==> NoLeak(sb, v')
  {
    hide BlocksAt, Owns;
    if NoLeak(sb, v) {
      forall b | b in v'.blkUsed && b >= sb.dataStart ensures Owned(v', b) {
        if b !in BlocksAt(v', i) {
          assert b in v'.blkUsed - BlocksAt(v', i);
          assert Owned(v, b);
          var j :| j in v.inoUsed && j < |v.inodes| && b in BlocksAt(v, j);
          assert b in BlocksAt(v', j);
        }
      }
    }
    if NoLeak(sb, v') {
      forall b | b in v.blkUsed && b >= sb.dataStart ensures Owned(v, b) {
        assert b in v'.blkUsed - BlocksAt(v', i);
        assert Owned(v', b);
        var j :| j in v'.inoUsed && j < |v'.inodes| && b in BlocksAt(v', j);
        assert j in v.inoUsed && b in BlocksAt(v, j);
      }
    }
  }

  /** `v'` has one allocated inode less, and the blocks it owned are unmarked. */
  ghost predicate Shrunk(v: Vol, t: nat, v': Vol)
  {
    && t in v.inoUsed && t < |v.inodes| == |v'.inodes|
    && v'.inoUsed == v.inoUsed - {t} && v'.inodes == v.inodes[t := v'.inodes[t]]
    && v'.blkUsed == v.blkUsed - BlocksAt(v, t)
    && v'.data == v.data
  }

  lemma ShrunkSound(sb: Superblock, v: Vol, t: nat, v': Vol)
    requires Sound(sb, v) && Shrunk(v, t, v') && WellSized(sb, v')
    ensures Sound(sb, v') && Keeps(v, v', v'.inoUsed)
    ensures NoLeak(sb, v) <==> NoLeak(sb, v')
    ensures forall j :: j in v'.inoUsed ==> BlocksAt(v', j) == BlocksAt(v, j)
  {
    hide Blocks, Pages, Mapped, Ptr, Distinct;
    forall j | j in v'.inoUsed
      ensures BlocksAt(v', j) == BlocksAt(v, j) && FileAt(v', j) == FileAt(v, j) && Owns(sb, v', v'.inodes[j])
    {
      assert BlocksAt(v, j) <= v.blkUsed && BlocksAt(v, j) !! BlocksAt(v, t);
    }
    forall b: nat | b < sb.dataStart ensures b in v'.blkUsed { InData(sb, v.inodes[t], v.data, b); }
    ShrunkLeak(sb, v, t, v');
  }

  lemma ShrunkLeak(sb: Superblock, v: Vol, t: nat, v': Vol)
    requires Shrunk(v, t, v') && forall j :: j in v'.inoUsed && j < |v.inodes| ==> BlocksAt(v', j) == BlocksAt(v, j)
    ensures NoLeak(sb, v) <==> NoLeak(sb, v')
  {
    hide BlocksAt;
    if NoLeak(sb, v) {
      forall b | b in v'.blkUsed && b >= sb.dataStart ensures Owned(v', b) {
        assert Owned(v, b);
        var j :| j in v.inoUsed && j < |v.inodes| && b in BlocksAt(v, j);
        assert j in v'.inoUsed && b in BlocksAt(v', j);
      }
    }
    if NoLeak(sb, v') {
      forall b | b in v.blkUsed && b >= sb.dataStart ensures Owned(v, b) {
        if b !in BlocksAt(v, t) {
          assert b in v'.blkUsed && Owned(v', b);
          var j :| j in v'.inoUsed && j < |v'.inodes| && b in BlocksAt(v', j);
          assert b in BlocksAt(v, j);
        }
      }
    }
  }

  lemma FileStepKeeps(sb: Superblock, v: Vol, ino: nat, v': Vol)
    requires Sound(sb, v) && FileStep(sb, v, ino, v') && WellSized(sb, v') && ino in v.inoUsed
    ensures Sound(sb, v') && Keeps(v, v', v.inoUsed - {ino}) && (NoLeak(sb, v) <==> NoLeak(sb, v'))
    ensures v'.inoUsed == v.inoUsed
  {
    hide Blocks, Owns, NoLeak, FileAt;
    FileStepSound(sb, v, ino, v');
  }
}
