/** scripts/kfsck.py: the offline checker, and what its verdict means. */
module Kfsck {
  import opened Bits
  import opened KfsFormat
  import opened KfsPages
  import opened KfsContent
  import opened KfsVolume
  import opened KfsDirent
  import opened KfsNames
  import opened KfsNamespace

  // ------------------------------------------------- what the checker visits

  /** How many pointer slots, in slot order, the checker visits for `size` bytes:
      the direct pointers in use, then the indirect block and its entries. */
  function RefCount(size: nat): nat
  {
    if BlocksFor(size) <= 10 then BlocksFor(size) else BlocksFor(size) + 1
  }

  ghost predicate SmallEnough(n: Inode)
  {
    BlocksFor(n.size) <= MAX_BLOCKS
  }

  ghost function Refs(n: Inode, data: DataMap): (r: seq<nat>)
    requires SmallEnough(n)
    ensures |r| == RefCount(n.size)
  {
    seq(RefCount(n.size), s requires 0 <= s < RefCount(n.size) => Ptr(n, data, s))
  }

  /** A block reference that mark_block accepts. */
  ghost predicate RefOk(sb: Superblock, v: Vol, b: nat)
  {
    sb.dataStart <= b < sb.total && b in v.blkUsed
  }

  /** References that mark_block accepts one after the other. */
  ghost predicate Good(sb: Superblock, v: Vol, rs: seq<nat>)
  {
    && (forall i :: 0 <= i < |rs| ==> RefOk(sb, v, rs[i]))
    && (forall i, j :: 0 <= i < j < |rs| ==> rs[i] != rs[j])
  }

  lemma GoodNext(sb: Superblock, v: Vol, rs: seq<nat>, b: nat)
    ensures Good(sb, v, rs + [b]) <==> Good(sb, v, rs) && RefOk(sb, v, b) && b !in rs
    ensures SetOf(rs + [b]) == SetOf(rs) + {b}
  {
    var t := rs + [b];
    assert t[|rs|] == b;
    assert forall i :: 0 <= i < |rs| ==> t[i] == rs[i];
    if b in rs {
      var i :| 0 <= i < |rs| && rs[i] == b;
      assert t[i] == t[|rs|];
    }
  }

  lemma GoodConcat(sb: Superblock, v: Vol, a: seq<nat>, b: seq<nat>)
    ensures Good(sb, v, a + b) <==> Good(sb, v, a) && Good(sb, v, b) && SetOf(a) !! SetOf(b)
    ensures SetOf(a + b) == SetOf(a) + SetOf(b)
    decreases |b|
  {
    if b == [] {
      assert a + b == a;
    } else {
      var c, x := b[..|b| - 1], b[|b| - 1];
      assert b == c + [x] && a + b == (a + c) + [x];
      GoodConcat(sb, v, a, c);
      GoodNext(sb, v, a + c, x);
      GoodNext(sb, v, c, x);
      hide Good;
    }
  }

  /** The references of the allocated inodes below `k`, in the checker's order. */
  ghost function AllRefs(v: Vol, k: nat): seq<nat>
    requires k <= |v.inodes| && forall i :: 0 <= i < k && i in v.inoUsed ==> SmallEnough(v.inodes[i])
  {
    if k == 0 then []
    else AllRefs(v, k - 1) + (if k - 1 in v.inoUsed then Refs(v.inodes[k - 1], v.data) else [])
  }

  // ------------------------------------------------------- directory records

  /** The checker's walk over a directory from `off` on meets no error. */
  ghost predicate ScanOk(data: seq<U8>, off: nat, inodeCount: nat)
    decreases |data| - off
  {
    if off >= |data| then true
    else
      && off + 7 <= |data|
      && U16At(data, off + 4) != 0 && U16At(data, off + 4) % 4 == 0
      && U32At(data, off) < inodeCount
      && ScanOk(data, off + U16At(data, off + 4), inodeCount)
  }

  /** A well-formed directory whose entries name existing inodes passes. */
  lemma ScanWellFormed(data: seq<U8>, i: nat, inodeCount: nat)
    requires WellFormed(data) && i <= |Parse(data)|
    requires forall j :: 0 <= j < |Parse(data)| ==> Parse(data)[j].ino < inodeCount
    ensures Offset(Parse(data), i) <= |data| && ScanOk(data, Offset(Parse(data), i), inodeCount)
    decreases |Parse(data)| - i
  {
    hide Parse, EncodeAll, U16At, U32At;
    var es := Parse(data);
    if i == |es| {
      LastOffset(es);
    } else {
      EntryRead(data, i);
      RecordAt(es, i);
      ScanWellFormed(data, i + 1, inodeCount);
    }
  }

  method ScanDir(data: seq<U8>, inodeCount: nat) returns (ok: bool)
    ensures ok <==> ScanOk(data, 0, inodeCount)
  {
    hide U16At, U32At;
    var off := 0;
    ok := true;
    while off < |data|
      invariant ok && (ScanOk(data, 0, inodeCount) <==> ScanOk(data, off, inodeCount))
      decreases |data| - off
    {
      if off + 7 > |data| { return false; }
      var len := U16At(data, off + 4);
      if len == 0 || len % 4 != 0 { return false; }
      if U32At(data, off) >= inodeCount { return false; }
      off := off + len;
    }
  }

  // ---------------------------------------------------------------- verdict

  /** Everything the checker asks of one allocated inode besides its references. */
  ghost predicate InodeFit(sb: Superblock, v: Vol, i: nat)
  {
    && i < |v.inodes| && SmallEnough(v.inodes[i])
    && (v.inodes[i].typ == TYPE_FILE || v.inodes[i].typ == TYPE_DIR)
    && (v.inodes[i].typ == TYPE_DIR ==> v.inodes[i].size <= MAX_SIZE && ScanOk(Content(FileAt(v, i)), 0, sb.inodeCount))
  }

  /** The verdict of the checker, stated of the volume. */
  ghost predicate Passes(sb: Superblock, v: Vol)
  {
    && |v.inodes| == sb.inodeCount
    && (forall i :: 0 <= i < sb.inodeCount && i in v.inoUsed ==> InodeFit(sb, v, i))
    && Good(sb, v, AllRefs(v, sb.inodeCount))
    && (forall b: nat :: b < sb.dataStart ==> b in v.blkUsed)
    && (forall b :: sb.dataStart <= b < sb.total && b in v.blkUsed ==> b in SetOf(AllRefs(v, sb.inodeCount)))
  }

  /** Everything marked is reached, no file has holes, and no indirect block is
      kept without need. */
  ghost predicate Clean(sb: Superblock, v: Vol)
  {
    NoLeak(sb, v) && forall i :: i in v.inoUsed ==> Neat(v, i)
  }

  ghost predicate Neat(v: Vol, i: nat)
  {
    i < |v.inodes| && Solid(FileAt(v, i)) && Tight(v.inodes[i])
  }

  lemma NeatSize(v: Vol, i: nat)
    requires i < |v.inodes| && FileAt(v, i).size <= MAX_SIZE
    ensures SmallEnough(v.inodes[i])
  {
  }

  /** A neat inode reaches exactly the blocks the checker visits for it. */
  lemma NeatRefs(sb: Superblock, v: Vol, i: nat)
    requires Neat(v, i) && Owns(sb, v, v.inodes[i]) && 0 !in v.data
    ensures SmallEnough(v.inodes[i]) && Good(sb, v, Refs(v.inodes[i], v.data))
    ensures SetOf(Refs(v.inodes[i], v.data)) == BlocksAt(v, i)
  {
    var n := v.inodes[i];
    NeatSize(v, i);
    IndPtr(n, v.data);
    hide Ptr, Pages, ZeroTail;
    var rs := Refs(n, v.data);
    forall s: nat | s < SLOTS ensures Ptr(n, v.data, s) != 0 <==> s < |rs| { NeatSlot(v, i, s); }
    forall s: nat | s < |rs| ensures RefOk(sb, v, rs[s]) { OwnedPtr(sb, v, n, s); }
    forall b | b in BlocksAt(v, i) ensures b in SetOf(rs) {
      var s: nat :| s < SLOTS && Ptr(n, v.data, s) == b && b != 0;
      assert rs[s] == b;
    }
    forall b | b in SetOf(rs) ensures b in BlocksAt(v, i) {
      var s: nat :| s < |rs| && rs[s] == b;
      PtrInBlocks(n, v.data, s);
    }
  }

  lemma NeatSlot(v: Vol, i: nat, s: nat)
    requires Neat(v, i) && s < SLOTS && 0 !in v.data
    ensures Ptr(v.inodes[i], v.data, s) != 0 <==> s < RefCount(v.inodes[i].size)
  {
    var n := v.inodes[i];
    IndPtr(n, v.data);
    var f := FileAt(v, i);
    assert f.mapped == Mapped(n, v.data) && f.size == n.size;
    if s == 10 {
      if BlocksFor(n.size) > 10 {
        assert 10 in Below(BlocksFor(n.size));
        assert IsMapped(n, v.data, 10) && SlotOf(10) == 11;
      }
    } else {
      var lb := if s < 10 then s else s - 1;
      assert SlotOf(lb) == s;
      assert lb in Mapped(n, v.data) <==> lb in Below(BlocksFor(n.size));
    }
  }

  // ----------------------------------------- the verdict and the invariant

  lemma AllRefsStep(v: Vol, k: nat)
    requires k < |v.inodes| && forall i :: 0 <= i <= k && i in v.inoUsed ==> SmallEnough(v.inodes[i])
    ensures AllRefs(v, k + 1) == AllRefs(v, k) + (if k in v.inoUsed then Refs(v.inodes[k], v.data) else [])
  {
  }

  /** Every reference the checker visits belongs to some allocated inode. */
  lemma RefOwner(v: Vol, k: nat, b: nat) returns (i: nat, s: nat)
    requires k <= |v.inodes| && forall i :: 0 <= i < k && i in v.inoUsed ==> SmallEnough(v.inodes[i])
    requires b in AllRefs(v, k)
    ensures i < k && i in v.inoUsed && s < RefCount(v.inodes[i].size) <= SLOTS && Ptr(v.inodes[i], v.data, s) == b
  {
    hide Ptr;
    var last := if k - 1 in v.inoUsed then Refs(v.inodes[k - 1], v.data) else [];
    if b in last {
      s :| 0 <= s < |last| && last[s] == b;
      i := k - 1;
    } else {
      i, s := RefOwner(v, k - 1, b);
    }
  }

  /** ... and every such reference is visited. */
  lemma RefVisited(v: Vol, k: nat, i: nat, s: nat)
    requires k <= |v.inodes| && forall i :: 0 <= i < k && i in v.inoUsed ==> SmallEnough(v.inodes[i])
    requires i < k && i in v.inoUsed && s < RefCount(v.inodes[i].size)
    ensures s < SLOTS && Ptr(v.inodes[i], v.data, s) in AllRefs(v, k)
  {
    hide Ptr;
    if i == k - 1 {
      assert Refs(v.inodes[i], v.data)[s] == Ptr(v.inodes[i], v.data, s);
    } else {
      RefVisited(v, k - 1, i, s);
    }
  }

  /** Some allocated inode below `k` reaches `b`. */
  ghost predicate OwnedBelow(v: Vol, k: nat, b: nat)
  {
    exists i :: 0 <= i < k && i in v.inoUsed && i < |v.inodes| && b in BlocksAt(v, i)
  }

  ghost predicate AllSmall(v: Vol)
  {
    forall i :: 0 <= i < |v.inodes| && i in v.inoUsed ==> SmallEnough(v.inodes[i])
  }

  ghost predicate RefsAreOwned(v: Vol, k: nat)
    requires k <= |v.inodes| && AllSmall(v)
  {
    forall b :: b in SetOf(AllRefs(v, k)) <==> OwnedBelow(v, k, b)
  }

  lemma NeatSmall(v: Vol)
    requires forall i :: i in v.inoUsed ==> Neat(v, i)
    ensures AllSmall(v)
  {
    forall i | 0 <= i < |v.inodes| && i in v.inoUsed ensures SmallEnough(v.inodes[i]) { NeatSize(v, i); }
  }

  /** On a neat, sound volume the references are accepted, and are the owned blocks. */
  lemma {:induction false} NeatGood(sb: Superblock, v: Vol, k: nat)
    requires Sound(sb, v) && k <= |v.inodes| && AllSmall(v) && forall i :: i in v.inoUsed ==> Neat(v, i)
    ensures Good(sb, v, AllRefs(v, k)) && RefsAreOwned(v, k)
  {
    hide Neat, Owns, Good, Refs, BlocksAt, RefsAreOwned;
    if k == 0 {
      NoRefs(sb, v);
    } else {
      var i := k - 1;
      NeatGood(sb, v, i);
      if i in v.inoUsed {
        NeatRefs(sb, v, i);
        NewRefs(sb, v, i);
        GoodConcat(sb, v, AllRefs(v, i), Refs(v.inodes[i], v.data));
        OwnedStep(v, i);
      } else {
        assert AllRefs(v, k) == AllRefs(v, i);
        OwnedStep(v, i);
      }
    }
  }

  lemma NoRefs(sb: Superblock, v: Vol)
    requires AllSmall(v)
    ensures Good(sb, v, AllRefs(v, 0)) && RefsAreOwned(v, 0)
  {
  }

  lemma NewRefs(sb: Superblock, v: Vol, i: nat)
    requires Sound(sb, v) && i < |v.inodes| && i in v.inoUsed && AllSmall(v) && RefsAreOwned(v, i)
    ensures SetOf(AllRefs(v, i)) !! BlocksAt(v, i)
  {
    hide BlocksAt, Owns, AllRefs;
    forall b | b in SetOf(AllRefs(v, i)) ensures b !in BlocksAt(v, i) {
      assert OwnedBelow(v, i, b);
      var j :| 0 <= j < i && j in v.inoUsed && j < |v.inodes| && b in BlocksAt(v, j);
      assert BlocksAt(v, i) !! BlocksAt(v, j);
    }
  }

  lemma OwnedStep(v: Vol, i: nat)
    requires i < |v.inodes| && AllSmall(v) && RefsAreOwned(v, i)
    requires if i in v.inoUsed then SetOf(AllRefs(v, i + 1)) == SetOf(AllRefs(v, i)) + BlocksAt(v, i)
             else AllRefs(v, i + 1) == AllRefs(v, i)
    ensures RefsAreOwned(v, i + 1)
  {
    hide BlocksAt, AllRefs, SetOf;
    var k := i + 1;
    forall b ensures b in SetOf(AllRefs(v, k)) <==> OwnedBelow(v, k, b) {
      if OwnedBelow(v, k, b) && !OwnedBelow(v, i, b) {
        assert i in v.inoUsed && b in BlocksAt(v, i);
      }
    }
  }

  /** The entries of every directory name inodes the superblock knows. */
  lemma EntriesInRange(sb: Superblock, v: Vol, d: nat)
    requires FsInv(sb, v) && IsDirAt(v, d)
    ensures DirFile(FileAt(v, d)) && ScanOk(Content(FileAt(v, d)), 0, sb.inodeCount)
  {
    hide Sound, TreeBy, FileAt, Parse, Content, EncodeAll, ScanOk;
    DirEntries(v, d);
    var data := Content(FileAt(v, d));
    var es := Parse(data);
    forall j | 0 <= j < |es| ensures es[j].ino < sb.inodeCount {
      EntryBound(sb, v, d, j);
    }
    FirstOffset(es);
    ScanWellFormed(data, 0, sb.inodeCount);
  }

  lemma EntryBound(sb: Superblock, v: Vol, d: nat, j: nat)
    requires FsInv(sb, v) && IsDirAt(v, d) && j < |EntriesOf(FileAt(v, d))|
    ensures EntriesOf(FileAt(v, d))[j].ino < sb.inodeCount
  {
    hide FileAt, EntriesOf, NodesOk, LinksOk, LinkedOnce, Deeper;
    var ns := NamesOf(v);
    var e := EntriesOf(FileAt(v, d))[j];
    assert WellSized(sb, v) by { assert Sound(sb, v); }
    if !IsDots(e.name) {
      EntryTarget(sb, v, d, j);
    } else {
      var par, depth :| TreeBy(ns, par, depth);
      assert ns.dirs[d] == EntriesOf(FileAt(v, d));
      DotsInRange(ns, d, j, par, depth);
    }
  }

  lemma DotsInRange(ns: Names, d: nat, j: nat, par: map<nat, nat>, depth: map<nat, nat>)
    requires TreeBy(ns, par, depth) && d in ns.dirs && j < |ns.dirs[d]| && IsDots(ns.dirs[d][j].name)
    ensures ns.dirs[d][j].ino in ns.used
  {
    hide LinksOk, LinkedOnce;
    var es := ns.dirs[d];
    assert UniqueNames(es);
    if d != ROOT {
      assert DotsOk(es, d, par[d]);
      assert j < 2;
    }
  }

  /** The checker passes a volume that satisfies the file system invariant
      exactly when nothing has leaked, no file has holes, and no inode keeps an
      indirect block it does not need. */
  lemma PassesIffClean(sb: Superblock, v: Vol)
    requires FsInv(sb, v)
    ensures Passes(sb, v) <==> Clean(sb, v)
  {
    hide FsInv;
    if Clean(sb, v) { CleanPasses(sb, v); }
    if Passes(sb, v) { PassesClean(sb, v); }
  }

  lemma CleanPasses(sb: Superblock, v: Vol)
    requires FsInv(sb, v) && Clean(sb, v)
    ensures Passes(sb, v)
  {
    hide Tree, Neat, ScanOk, Content, FileAt, Owns;
    NeatSmall(v);
    NeatGood(sb, v, sb.inodeCount);
    forall i | 0 <= i < sb.inodeCount && i in v.inoUsed ensures InodeFit(sb, v, i) {
      assert NodeOk(v, i);
      if v.inodes[i].typ == TYPE_DIR { EntriesInRange(sb, v, i); FileAtOf(v, i); }
    }
    forall b | sb.dataStart <= b < sb.total && b in v.blkUsed ensures b in SetOf(AllRefs(v, sb.inodeCount)) {
      assert Owned(v, b);
      assert OwnedBelow(v, sb.inodeCount, b);
    }
  }

  lemma PassesClean(sb: Superblock, v: Vol)
    requires FsInv(sb, v) && Passes(sb, v)
    ensures Clean(sb, v)
  {
    hide Tree, ScanOk, Content, FileAt, Ptr, Good, AllRefs, Solid, Fine, DirFile;
    forall i | i in v.inoUsed ensures Neat(v, i) {
      assert InodeFit(sb, v, i) && NodeOk(v, i);
      PassesSolid(sb, v, i);
      PassesTight(sb, v, i);
    }
    forall b | b in v.blkUsed && b >= sb.dataStart ensures Owned(v, b) {
      assert b in AllRefs(v, sb.inodeCount) by { assert b in SetOf(AllRefs(v, sb.inodeCount)); }
      var i, s := RefOwner(v, sb.inodeCount, b);
      assert b != 0;
      PtrInBlocks(v.inodes[i], v.data, s);
      assert b in BlocksAt(v, i);
    }
  }

  /** Accepted references leave no hole. */
  lemma PassesSolid(sb: Superblock, v: Vol, i: nat)
    requires FsInv(sb, v) && Passes(sb, v) && i in v.inoUsed && InodeFit(sb, v, i) && NodeOk(v, i)
    ensures Solid(FileAt(v, i))
  {
    hide Tree, ScanOk, Content, Ptr, ZeroTail, Pages, WellFormed;
    if v.inodes[i].typ == TYPE_FILE {
      var n := v.inodes[i];
      var f := FileAt(v, i);
      forall lb: nat | lb < BlocksFor(n.size) ensures lb in f.mapped {
        var s := SlotOf(lb);
        RefVisited(v, sb.inodeCount, i, s);
        RefNotZero(sb, v, Ptr(n, v.data, s));
        assert IsMapped(n, v.data, lb);
      }
      assert f.mapped == Below(BlocksFor(n.size));
    }
  }

  lemma RefNotZero(sb: Superblock, v: Vol, b: nat)
    requires Layout(sb) && Passes(sb, v) && b in AllRefs(v, sb.inodeCount)
    ensures b != 0
  {
    var rs := AllRefs(v, sb.inodeCount);
    var i :| 0 <= i < |rs| && rs[i] == b;
    assert RefOk(sb, v, rs[i]);
  }

  /** Every marked block is visited, so an unneeded indirect block shows. */
  lemma PassesTight(sb: Superblock, v: Vol, i: nat)
    requires FsInv(sb, v) && Passes(sb, v) && i in v.inoUsed && i < |v.inodes|
    ensures v.inodes[i].indirect != 0 ==> BlocksFor(v.inodes[i].size) > 10
  {
    hide Tree, NodesOk, Good, AllRefs, Blocks;
    var n := v.inodes[i];
    if n.indirect != 0 {
      IndPtr(n, v.data);
      hide Ptr;
      OwnedPtr(sb, v, n, IND_SLOT);
      PtrInBlocks(n, v.data, IND_SLOT);
      assert (n.indirect as nat) in SetOf(AllRefs(v, sb.inodeCount));
      var j, s := RefOwner(v, sb.inodeCount, n.indirect);
      PtrInBlocks(v.inodes[j], v.data, s);
      assert j == i by { assert j != i ==> BlocksAt(v, i) !! BlocksAt(v, j); }
      assert s == IND_SLOT by { assert Distinct(sb, n, v.data); }
    }
  }

  // ------------------------------------------- the verdict, on any volume

  /** A file of `size` bytes needs pointer slot `s`: ten direct pointers, one slot for
      the indirect block, then the words of that block. */
  predicate SlotNeeded(size: nat, s: nat)
  {
    if s < 10 then 512 * s < size else if s == 10 then 10 * 512 < size else 512 * (s - 1) < size
  }

  /** What stands in that slot. */
  function SlotAt(v: Vol, i: nat, s: nat): nat
    requires i < |v.inodes| && s < 139
  {
    var n := v.inodes[i];
    if s < 10 then n.direct[s]
    else if s == 10 then n.indirect
    else if n.indirect in v.data then U32At(v.data[n.indirect], 4 * (s - 11))
    else 0
  }

  ghost predicate Needs(v: Vol, k: nat, i: nat, s: nat)
  {
    i < k && i in v.inoUsed && i < |v.inodes| && s < 139 && SlotNeeded(v.inodes[i].size, s)
  }

  /** Records of a directory, one after the other from byte `offs[0]` to the end. */
  ghost predicate Records(data: seq<U8>, offs: seq<nat>, inodeCount: nat)
  {
    && offs != [] && |data| <= offs[|offs| - 1]
    && forall k :: 0 <= k < |offs| - 1 ==>
         RecordOk(data, offs[k], inodeCount) && offs[k + 1] == offs[k] + U16At(data, offs[k] + 4)
  }

  ghost predicate RecordOk(data: seq<U8>, off: nat, inodeCount: nat)
  {
    && off < |data| && off + 7 <= |data|
    && U16At(data, off + 4) > 0 && U16At(data, off + 4) % 4 == 0 && U32At(data, off) < inodeCount
  }

  /** No damage: types and sizes are possible, every pointer a file needs is in the data
      area and marked, no two of them are equal, directories are runs of records, the
      metadata is marked, and every marked data block is pointed to. */
  ghost predicate Undamaged(sb: Superblock, v: Vol)
  {
    && (forall i :: i in v.inoUsed ==>
          i < |v.inodes| && v.inodes[i].size <= 138 * 512 && (v.inodes[i].typ == 1 || v.inodes[i].typ == 2))
    && PointersOk(sb, v, sb.inodeCount) && PointersApart(v, sb.inodeCount)
    && (forall i :: i in v.inoUsed && i < |v.inodes| && v.inodes[i].size <= 138 * 512 && v.inodes[i].typ == 2 ==>
          exists offs :: Records(Content(FileAt(v, i)), offs, sb.inodeCount) && offs[0] == 0)
    && (forall b: nat :: b < sb.dataStart ==> b in v.blkUsed)
    && (forall b: nat :: sb.dataStart <= b < sb.total && b in v.blkUsed ==> PointedTo(v, sb.inodeCount, b))
  }

  ghost predicate PointersOk(sb: Superblock, v: Vol, k: nat)
  {
    forall i: nat, s: nat :: Needs(v, k, i, s) ==>
      sb.dataStart <= SlotAt(v, i, s) < sb.total && SlotAt(v, i, s) in v.blkUsed
  }

  ghost predicate PointersApart(v: Vol, k: nat)
  {
    forall i: nat, s: nat, j: nat, t: nat :: Needs(v, k, i, s) && Needs(v, k, j, t) && (i != j || s != t) ==>
      SlotAt(v, i, s) != SlotAt(v, j, t)
  }

  ghost predicate PointedTo(v: Vol, k: nat, b: nat)
  {
    exists i: nat, s: nat :: Needs(v, k, i, s) && SlotAt(v, i, s) == b
  }

  /** The slots visited are the needed ones. */
  lemma SlotIsRef(v: Vol, i: nat, s: nat)
    requires i < |v.inodes| && SmallEnough(v.inodes[i])
    ensures s < 139 && SlotNeeded(v.inodes[i].size, s) <==> s < |Refs(v.inodes[i], v.data)|
    ensures s < |Refs(v.inodes[i], v.data)| ==> Refs(v.inodes[i], v.data)[s] == SlotAt(v, i, s)
  {
    hide U32At;
    var n := v.inodes[i];
    if 10 < s < |Refs(n, v.data)| && n.indirect in v.data {
      assert WordsOf(v.data[n.indirect])[s - 11] == U32At(v.data[n.indirect], 4 * (s - 11));
    }
  }

  /** The blocks visited are those in needed slots. */
  lemma VisitedMeans(v: Vol, k: nat, b: nat)
    requires k <= |v.inodes| && AllSmall(v)
    ensures b in AllRefs(v, k) <==> PointedTo(v, k, b)
  {
    hide SlotNeeded, SlotAt, SmallEnough, Ptr, AllRefs;
    if b in AllRefs(v, k) {
      var i, s := RefOwner(v, k, b);
      SlotIsRef(v, i, s);
      assert Refs(v.inodes[i], v.data)[s] == b;
      assert Needs(v, k, i, s);
    }
    if PointedTo(v, k, b) {
      var i: nat, s: nat :| Needs(v, k, i, s) && SlotAt(v, i, s) == b;
      SlotIsRef(v, i, s);
      RefVisited(v, k, i, s);
    }
  }

  ghost predicate OwnOk(sb: Superblock, v: Vol, i: nat)
  {
    forall s: nat :: Needs(v, i + 1, i, s) ==>
      sb.dataStart <= SlotAt(v, i, s) < sb.total && SlotAt(v, i, s) in v.blkUsed
  }

  ghost predicate OwnApart(v: Vol, i: nat)
  {
    forall s: nat, t: nat :: Needs(v, i + 1, i, s) && Needs(v, i + 1, i, t) && s != t ==>
      SlotAt(v, i, s) != SlotAt(v, i, t)
  }

  ghost predicate EarlierApart(v: Vol, i: nat)
  {
    forall s: nat :: Needs(v, i + 1, i, s) ==> !PointedTo(v, i, SlotAt(v, i, s))
  }

  lemma PointersStep(sb: Superblock, v: Vol, i: nat)
    ensures PointersOk(sb, v, i + 1) <==> PointersOk(sb, v, i) && OwnOk(sb, v, i)
    ensures PointersApart(v, i + 1) <==> PointersApart(v, i) && OwnApart(v, i) && EarlierApart(v, i)
  {
    hide SlotNeeded, SlotAt;
    assert forall j: nat, s: nat :: Needs(v, i + 1, j, s) <==> Needs(v, i, j, s) || (j == i && Needs(v, i + 1, i, s));
    if PointersApart(v, i + 1) {
      assert PointersApart(v, i);
      forall s: nat | Needs(v, i + 1, i, s) ensures !PointedTo(v, i, SlotAt(v, i, s)) {
        forall j: nat, t: nat | Needs(v, i, j, t) ensures SlotAt(v, j, t) != SlotAt(v, i, s) {
          assert Needs(v, i + 1, j, t);
        }
      }
    }
  }

  lemma NotNeeded(sb: Superblock, v: Vol, i: nat)
    ensures i !in v.inoUsed ==> OwnOk(sb, v, i) && OwnApart(v, i) && EarlierApart(v, i)
  {
  }

  lemma OwnRefs(sb: Superblock, v: Vol, i: nat)
    requires i < |v.inodes| && i in v.inoUsed && SmallEnough(v.inodes[i])
    ensures Good(sb, v, Refs(v.inodes[i], v.data)) <==> OwnOk(sb, v, i) && OwnApart(v, i)
  {
    var rs := Refs(v.inodes[i], v.data);
    forall s: nat { SlotIsRef(v, i, s); }
    hide SlotNeeded, SlotAt, Refs;
    if OwnOk(sb, v, i) && OwnApart(v, i) {
      forall s | 0 <= s < |rs| ensures RefOk(sb, v, rs[s]) { assert Needs(v, i + 1, i, s); }
      forall s, t | 0 <= s < t < |rs| ensures rs[s] != rs[t] {
        assert Needs(v, i + 1, i, s) && Needs(v, i + 1, i, t);
      }
    }
    if Good(sb, v, rs) {
      forall s: nat | Needs(v, i + 1, i, s)
        ensures sb.dataStart <= SlotAt(v, i, s) < sb.total && SlotAt(v, i, s) in v.blkUsed
      {
        assert RefOk(sb, v, rs[s]);
      }
    }
  }

  lemma EarlierRefs(v: Vol, i: nat)
    requires i < |v.inodes| && i in v.inoUsed && AllSmall(v)
    ensures SetOf(AllRefs(v, i)) !! SetOf(Refs(v.inodes[i], v.data)) <==> EarlierApart(v, i)
  {
    var rs := Refs(v.inodes[i], v.data);
    forall s: nat { SlotIsRef(v, i, s); }
    hide SlotNeeded, SlotAt, Refs, AllRefs, PointedTo;
    forall b: nat { VisitedMeans(v, i, b); }
    if EarlierApart(v, i) {
      forall b | b in SetOf(rs) ensures b !in SetOf(AllRefs(v, i)) {
        var s: nat :| s < |rs| && rs[s] == b;
        assert Needs(v, i + 1, i, s);
      }
    }
    if SetOf(AllRefs(v, i)) !! SetOf(rs) {
      forall s: nat | Needs(v, i + 1, i, s) ensures !PointedTo(v, i, SlotAt(v, i, s)) {
        assert rs[s] in SetOf(rs);
      }
    }
  }

  /** Accepting the references in turn means that every needed slot is all right. */
  lemma {:induction false} GoodMeans(sb: Superblock, v: Vol, k: nat)
    requires k <= |v.inodes| && AllSmall(v)
    ensures Good(sb, v, AllRefs(v, k)) <==> PointersOk(sb, v, k) && PointersApart(v, k)
  {
    if k == 0 {
    } else {
      var i := k - 1;
      GoodMeans(sb, v, i);
      PointersStep(sb, v, i);
      AllRefsStep(v, i);
      NotNeeded(sb, v, i);
      hide Good, PointersOk, PointersApart, OwnOk, OwnApart, EarlierApart, AllRefs, Refs, SetOf;
      if i in v.inoUsed {
        OwnRefs(sb, v, i);
        EarlierRefs(v, i);
        GoodConcat(sb, v, AllRefs(v, i), Refs(v.inodes[i], v.data));
      } else {
        assert AllRefs(v, i) + [] == AllRefs(v, i);
      }
    }
  }

  lemma {:induction false} ScanMeans(data: seq<U8>, off: nat, inodeCount: nat)
    ensures ScanOk(data, off, inodeCount) <==> exists offs :: Records(data, offs, inodeCount) && offs[0] == off
    decreases |data| - off
  {
    hide U16At, U32At;
    if off >= |data| {
      assert Records(data, [off], inodeCount);
    } else {
      if ScanOk(data, off, inodeCount) {
        var len := U16At(data, off + 4);
        ScanMeans(data, off + len, inodeCount);
        var offs :| Records(data, offs, inodeCount) && offs[0] == off + len;
        RecordsMore(data, off, offs, inodeCount);
      }
      if offs :| Records(data, offs, inodeCount) && offs[0] == off {
        assert RecordOk(data, offs[0], inodeCount);
        ScanMeans(data, offs[1], inodeCount);
        RecordsRest(data, offs, inodeCount);
      }
    }
  }

  lemma RecordsMore(data: seq<U8>, off: nat, offs: seq<nat>, inodeCount: nat)
    requires Records(data, offs, inodeCount) && RecordOk(data, off, inodeCount) && offs[0] == off + U16At(data, off + 4)
    ensures Records(data, [off] + offs, inodeCount)
  {
    hide U16At, U32At;
    var more := [off] + offs;
    forall k | 0 <= k < |more| - 1
      ensures RecordOk(data, more[k], inodeCount) && more[k + 1] == more[k] + U16At(data, more[k] + 4)
    {
      if k > 0 { assert RecordOk(data, offs[k - 1], inodeCount); }
    }
  }

  lemma RecordsRest(data: seq<U8>, offs: seq<nat>, inodeCount: nat)
    requires Records(data, offs, inodeCount) && |offs| >= 2
    ensures Records(data, offs[1..], inodeCount)
  {
    hide U16At, U32At;
    var rest := offs[1..];
    forall k | 0 <= k < |rest| - 1
      ensures RecordOk(data, rest[k], inodeCount) && rest[k + 1] == rest[k] + U16At(data, rest[k] + 4)
    {
      assert RecordOk(data, offs[k + 1], inodeCount);
    }
  }

  /** The checker passes exactly the undamaged volumes, sound or not. */
  lemma PassesMeans(sb: Superblock, v: Vol)
    requires WellSized(sb, v)
    ensures Passes(sb, v) <==> Undamaged(sb, v)
  {
    hide Good, AllRefs, PointersOk, PointersApart, PointedTo, FileAt, Content;
    if AllSmall(v) {
      GoodMeans(sb, v, sb.inodeCount);
      forall b: nat { VisitedMeans(v, sb.inodeCount, b); }
      forall i | i in v.inoUsed && i < |v.inodes| && FileAt(v, i).size <= MAX_SIZE {
        ScanMeans(Content(FileAt(v, i)), 0, sb.inodeCount);
      }
      forall i | i in v.inoUsed && i < |v.inodes| ensures FileAt(v, i).size == v.inodes[i].size { FileAtOf(v, i); }
    } else {
      PassesSmall(sb, v);
    }
  }

  // -------------------------------------------------------------- the script

  method GetBit(disk: Disk, start: nat, i: nat) returns (b: bool)
    requires start + i / 8 / 512 < |disk|
    ensures b == BitAt(disk, start, i)
  {
    b := Bit(disk[start + i / 8 / 512][i / 8 % 512], i % 8);
  }

  /** mark_block for each of `ptrs` in turn: no new error exactly when all are
      accepted after the ones already marked. */
  method MarkAll(sb: Superblock, disk: Disk, ptrs: seq<nat>, refs: set<nat>, errors: nat, ghost seen: seq<nat>)
    returns (refs': set<nat>, errors': nat)
    requires Layout(sb) && |disk| == sb.total
    requires errors == 0 ==> Good(sb, VolOf(sb, disk), seen) && refs == SetOf(seen)
    ensures errors' == 0 <==> errors == 0 && Good(sb, VolOf(sb, disk), seen + ptrs)
    ensures errors' == 0 ==> refs' == SetOf(seen + ptrs)
    ensures errors == 0 ==>
      (errors' == 0 <==>
        && (forall i :: 0 <= i < |ptrs| ==>
              sb.dataStart <= ptrs[i] < sb.total && ptrs[i] in VolOf(sb, disk).blkUsed && ptrs[i] !in refs)
        && (forall i, j :: 0 <= i < j < |ptrs| ==> ptrs[i] != ptrs[j]))
  {
    ghost var v := VolOf(sb, disk);
    if errors == 0 { GoodAfter(sb, v, seen, ptrs); }
    hide VolOf, Good, BitAt;
    refs', errors' := refs, errors;
    assert seen + ptrs[..0] == seen;
    for i := 0 to |ptrs|
      invariant errors' == 0 <==> errors == 0 && Good(sb, v, seen + ptrs[..i])
      invariant errors' == 0 ==> refs' == SetOf(seen + ptrs[..i])
    {
      var b := ptrs[i];
      assert seen + ptrs[..i + 1] == (seen + ptrs[..i]) + [b];
      GoodNext(sb, v, seen + ptrs[..i], b);
      if b < sb.dataStart || b >= sb.total {
        errors' := errors' + 1;
      } else if b in refs' {
        errors' := errors' + 1;
      } else {
        var marked := GetBit(disk, sb.bbStart, b);
        assert marked == (b in v.blkUsed) by { MarkedBit(sb, disk, b); }
        if !marked {
          errors' := errors' + 1;
        } else {
          refs' := refs' + {b};
        }
      }
    }
    assert ptrs[..|ptrs|] == ptrs;
  }

  lemma GoodAfter(sb: Superblock, v: Vol, seen: seq<nat>, ptrs: seq<nat>)
    requires Good(sb, v, seen)
    ensures Good(sb, v, seen + ptrs) <==>
      && (forall i :: 0 <= i < |ptrs| ==>
            sb.dataStart <= ptrs[i] < sb.total && ptrs[i] in v.blkUsed && ptrs[i] !in SetOf(seen))
      && (forall i, j :: 0 <= i < j < |ptrs| ==> ptrs[i] != ptrs[j])
  {
    GoodConcat(sb, v, seen, ptrs);
    if Good(sb, v, seen + ptrs) {
      forall i | 0 <= i < |ptrs|
        ensures sb.dataStart <= ptrs[i] < sb.total && ptrs[i] in v.blkUsed && ptrs[i] !in SetOf(seen)
      {
        assert RefOk(sb, v, ptrs[i]) && ptrs[i] in SetOf(ptrs);
      }
    }
  }

  lemma MarkedBit(sb: Superblock, disk: Disk, b: nat)
    requires Layout(sb) && |disk| == sb.total && b < sb.total
    ensures BitAt(disk, sb.bbStart, b) == (b in VolOf(sb, disk).blkUsed)
  {
  }

  lemma GoodPrefix(sb: Superblock, v: Vol, a: seq<nat>, b: seq<nat>)
    ensures Good(sb, v, a + b) ==> Good(sb, v, a)
  {
    GoodConcat(sb, v, a, b);
  }

  lemma GoodMember(sb: Superblock, v: Vol, rs: seq<nat>, b: nat)
    requires Good(sb, v, rs) && b in rs
    ensures RefOk(sb, v, b)
  {
    var i :| 0 <= i < |rs| && rs[i] == b;
    assert RefOk(sb, v, rs[i]);
  }

  function Nats(w: seq<U32>): (r: seq<nat>)
    ensures |r| == |w|
  {
    seq(|w|, i requires 0 <= i < |w| => w[i] as nat)
  }

  /** The references of one inode, in three pieces. */
  lemma RefPieces(n: Inode, data: DataMap)
    requires SmallEnough(n)
    ensures BlocksFor(n.size) <= 10 ==> Refs(n, data) == Nats(n.direct[..BlocksFor(n.size)])
    ensures BlocksFor(n.size) > 10 && n.indirect in data ==>
      Refs(n, data) == Nats(n.direct) + [n.indirect as nat] + Nats(WordsOf(data[n.indirect])[..BlocksFor(n.size) - 10])
    ensures BlocksFor(n.size) > 10 ==>
              |Refs(n, data)| > 10 && Refs(n, data)[10] == n.indirect && Refs(n, data)[..10] == Nats(n.direct)
  {
    hide WordsOf;
    var r := Refs(n, data);
    if BlocksFor(n.size) > 10 {
      assert r[..10] == Nats(n.direct);
      if n.indirect in data {
        assert r[11..] == Nats(WordsOf(data[n.indirect])[..BlocksFor(n.size) - 10]);
        assert r == r[..10] + [r[10]] + r[11..];
      }
    }
  }

  /** The part of the inode pass that follows pointers. */
  method CheckRefs(sb: Superblock, disk: Disk, n: Inode, refs: set<nat>, errors: nat, ghost seen: seq<nat>)
    returns (refs': set<nat>, errors': nat)
    requires Layout(sb) && |disk| == sb.total && SmallEnough(n)
    requires errors == 0 ==> Good(sb, VolOf(sb, disk), seen) && refs == SetOf(seen)
    ensures errors' == 0 <==> errors == 0 && Good(sb, VolOf(sb, disk), seen + Refs(n, VolOf(sb, disk).data))
    ensures errors' == 0 ==> refs' == SetOf(seen + Refs(n, VolOf(sb, disk).data))
  {
    hide VolOf, Good, WordsOf, Refs, SetOf, RefOk;
    ghost var v := VolOf(sb, disk);
    ghost var all := Refs(n, v.data);
    var need := BlocksFor(n.size);
    RefPieces(n, v.data);
    if need <= 10 {
      refs', errors' := MarkAll(sb, disk, Nats(n.direct[..need]), refs, errors, seen);
      return;
    }
    refs', errors' := MarkAll(sb, disk, Nats(n.direct), refs, errors, seen);
    ghost var seen1 := seen + Nats(n.direct);
    assert seen + all == seen1 + all[10..];
    GoodPrefix(sb, v, seen1, all[10..]);
    assert Good(sb, v, seen + all) ==> RefOk(sb, v, n.indirect) by {
      if Good(sb, v, seen + all) {
        assert (seen + all)[|seen| + 10] == n.indirect;
        GoodMember(sb, v, seen + all, n.indirect);
      }
    }
    if n.indirect == 0 {
      errors' := errors' + 1;
      assert !RefOk(sb, v, 0) by { ZeroRef(sb, v); }
      return;
    }
    ghost var e1 := errors';
    refs', errors' := MarkAll(sb, disk, [n.indirect as nat], refs', errors', seen1);
    ghost var seen2 := seen1 + [n.indirect as nat];
    assert seen + all == seen2 + all[11..];
    GoodPrefix(sb, v, seen2, all[11..]);
    if n.indirect >= sb.total {
      assert !RefOk(sb, v, n.indirect) by { FarRef(sb, v, n.indirect); }
      return refs', errors' + 1;
    }
    var ind := WordsOf(disk[n.indirect]);
    if errors' == 0 {
      assert RefOk(sb, v, n.indirect) by { assert seen2[|seen1|] == n.indirect; GoodMember(sb, v, seen2, n.indirect); }
      assert n.indirect in v.data && v.data[n.indirect] == disk[n.indirect] by { DataAt(sb, disk, n.indirect); }
      assert all[11..] == Nats(ind[..need - 10]);
    }
    ghost var e2 := errors';
    refs', errors' := MarkAll(sb, disk, Nats(ind[..need - 10]), refs', errors', seen2);
  }

  lemma ZeroRef(sb: Superblock, v: Vol)
    requires Layout(sb)
    ensures !RefOk(sb, v, 0)
  {
  }

  lemma FarRef(sb: Superblock, v: Vol, b: nat)
    requires b >= sb.total
    ensures !RefOk(sb, v, b)
  {
  }

  lemma DataAt(sb: Superblock, disk: Disk, b: nat)
    requires Layout(sb) && |disk| == sb.total && RefOk(sb, VolOf(sb, disk), b)
    ensures b in VolOf(sb, disk).data && VolOf(sb, disk).data[b] == disk[b]
  {
  }

  /** The bytes of a directory, block after block, cut at its size. */
  method ReadDir(sb: Superblock, disk: Disk, n: Inode) returns (bytes: seq<U8>)
    requires Layout(sb) && |disk| == sb.total && SmallEnough(n) && n.size <= MAX_SIZE
    requires Good(sb, VolOf(sb, disk), Refs(n, VolOf(sb, disk).data))
    ensures bytes == Content(FileOf(n, VolOf(sb, disk).data))
  {
    hide VolOf, WordsOf, Good, Pages, Mapped, ByteOf;
    ghost var v := VolOf(sb, disk);
    ghost var pages := Pages(n, v.data);
    var need := BlocksFor(n.size);
    bytes := [];
    for lb := 0 to need
      invariant |bytes| == 512 * lb
      invariant forall p: nat :: p < 512 * lb ==> bytes[p] == ByteOf(pages, p)
    {
      var ptr: nat;
      GoodSlot(sb, disk, n, SlotOf(lb));
      if lb < 10 {
        ptr := n.direct[lb];
      } else {
        GoodSlot(sb, disk, n, IND_SLOT);
        ptr := WordsOf(disk[n.indirect])[lb - 10];
      }
      PageOfSlot(n, v.data, lb);
      forall p: nat | 512 * lb <= p < 512 * lb + 512
        ensures disk[ptr][p - 512 * lb] == ByteOf(pages, p)
      {
        InPage(pages, lb, p);
      }
      bytes := bytes + disk[ptr];
    }
    bytes := bytes[..n.size];
    assert bytes == Bytes(pages, n.size);
  }

  lemma GoodSlot(sb: Superblock, disk: Disk, n: Inode, s: nat)
    requires Layout(sb) && |disk| == sb.total && SmallEnough(n) && s < RefCount(n.size)
    requires Good(sb, VolOf(sb, disk), Refs(n, VolOf(sb, disk).data))
    ensures var d := VolOf(sb, disk).data;
            var p := Ptr(n, d, s);
            p != 0 && p < sb.total && p in d && d[p] == disk[p]
  {
    hide Ptr;
    var v := VolOf(sb, disk);
    assert RefOk(sb, v, Refs(n, v.data)[s]);
    DataAt(sb, disk, Ptr(n, v.data, s));
  }

  lemma PageOfSlot(n: Inode, data: DataMap, lb: nat)
    requires lb < MAX_BLOCKS && Ptr(n, data, SlotOf(lb)) != 0 && Ptr(n, data, SlotOf(lb)) in data
    ensures Pages(n, data)[lb] == data[Ptr(n, data, SlotOf(lb))]
  {
    hide Ptr;
  }

  lemma InPage(pages: seq<Block>, lb: nat, p: nat)
    requires |pages| == MAX_BLOCKS && lb < MAX_BLOCKS && 512 * lb <= p < 512 * lb + 512
    ensures ByteOf(pages, p) == pages[lb][p - 512 * lb]
  {
    assert p / 512 == lb && p % 512 == p - 512 * lb;
  }

  /** One turn of the inode pass. A directory is walked once its blocks are
      accepted; when they are not, the verdict is settled already. */
  method CheckInode(sb: Superblock, disk: Disk, ino: nat, refs: set<nat>, errors: nat, ghost seen: seq<nat>)
    returns (crash: bool, refs': set<nat>, errors': nat)
    requires Layout(sb) && |disk| == sb.total && ino < sb.inodeCount && ino in VolOf(sb, disk).inoUsed
    requires errors == 0 ==> Good(sb, VolOf(sb, disk), seen) && refs == SetOf(seen)
    ensures crash <==> !SmallEnough(VolOf(sb, disk).inodes[ino])
    ensures !crash ==>
      var v := VolOf(sb, disk);
      && (errors' == 0 <==> errors == 0 && InodeFit(sb, v, ino) && Good(sb, v, seen + Refs(v.inodes[ino], v.data)))
      && (errors' == 0 ==> refs' == SetOf(seen + Refs(v.inodes[ino], v.data)))
  {
    hide VolOf, Good, Refs, SetOf, RefOk, ScanOk, Content, FileOf, GetInode;
    ghost var v := VolOf(sb, disk);
    var n := GetInode(disk[sb.itStart + ino / 8], ino % 8);
    assert n == v.inodes[ino] by { InodeAt(sb, disk, ino); }
    refs', errors' := refs, errors;
    if BlocksFor(n.size) > MAX_BLOCKS { return true, refs', errors'; }
    crash := false;
    if n.typ != TYPE_FILE && n.typ != TYPE_DIR {
      errors' := errors' + 1;
    }
    ghost var e1 := errors';
    refs', errors' := CheckRefs(sb, disk, n, refs', errors', seen);
    FileAtOf(v, ino);
    if errors' == 0 && n.typ == TYPE_DIR {
      assert Good(sb, v, Refs(n, v.data)) by { GoodConcat(sb, v, seen, Refs(n, v.data)); }
      var data := ReadDir(sb, disk, n);
      var ok := ScanDir(data, sb.inodeCount);
      if !ok { errors' := errors' + 1; }
    }
  }

  lemma InodeAt(sb: Superblock, disk: Disk, ino: nat)
    requires Layout(sb) && |disk| == sb.total && ino < sb.inodeCount
    ensures VolOf(sb, disk).inodes[ino] == GetInode(disk[sb.itStart + ino / 8], ino % 8)
  {
  }

  /** The inode pass over the whole table. */
  method CheckInodes(sb: Superblock, disk: Disk) returns (crash: bool, refs: set<nat>, errors: nat)
    requires Layout(sb) && |disk| == sb.total
    ensures crash ==> !AllSmall(VolOf(sb, disk))
    ensures !crash ==>
      var v := VolOf(sb, disk);
      && AllSmall(v)
      && (errors == 0 <==>
           && (forall i :: 0 <= i < sb.inodeCount && i in v.inoUsed ==> InodeFit(sb, v, i))
           && Good(sb, v, AllRefs(v, sb.inodeCount)))
      && (errors == 0 ==> refs == SetOf(AllRefs(v, sb.inodeCount)))
  {
    hide VolOf, Good, Refs, SetOf, RefOk, InodeFit, BitAt;
    ghost var v := VolOf(sb, disk);
    crash, refs, errors := false, {}, 0;
    assert Good(sb, v, []) && SetOf([]) == {} by { NothingSeen(sb, v); }
    for ino := 0 to sb.inodeCount
      invariant !crash && forall i :: 0 <= i < ino && i in v.inoUsed ==> SmallEnough(v.inodes[i])
      invariant errors == 0 <==>
                  (forall i :: 0 <= i < ino && i in v.inoUsed ==> InodeFit(sb, v, i)) && Good(sb, v, AllRefs(v, ino))
      invariant errors == 0 ==> refs == SetOf(AllRefs(v, ino))
    {
      var used := GetBit(disk, sb.ibStart, ino);
      assert used == (ino in v.inoUsed) by { UsedBit(sb, disk, ino); }
      if used {
        crash, refs, errors := CheckInode(sb, disk, ino, refs, errors, AllRefs(v, ino));
        if crash { return; }
        AllRefsStep(v, ino);
        GoodPrefix(sb, v, AllRefs(v, ino), Refs(v.inodes[ino], v.data));
      } else {
        AllRefsStep(v, ino);
        assert AllRefs(v, ino) + [] == AllRefs(v, ino);
      }
    }
  }

  lemma NothingSeen(sb: Superblock, v: Vol)
    ensures Good(sb, v, []) && SetOf([]) == {}
  {
  }

  lemma UsedBit(sb: Superblock, disk: Disk, i: nat)
    requires Layout(sb) && |disk| == sb.total && i < sb.inodeCount
    ensures BitAt(disk, sb.ibStart, i) == (i in VolOf(sb, disk).inoUsed)
  {
  }

  /** The script on an image whose superblock it accepted. */
  method Check(sb: Superblock, disk: Disk) returns (pass: bool)
    requires Layout(sb) && |disk| == sb.total
    ensures pass <==> Passes(sb, VolOf(sb, disk))
    ensures pass <==> Undamaged(sb, VolOf(sb, disk))
  {
    hide VolOf, Good, AllRefs, SetOf, RefOk, InodeFit, BitAt, Undamaged;
    ghost var v := VolOf(sb, disk);
    PassesMeans(sb, v);
    var crash, refs, errors := CheckInodes(sb, disk);
    PassesSmall(sb, v);
    if crash { return false; }
    ghost var e1 := errors;
    for b := 0 to sb.dataStart
      invariant errors == 0 <==> e1 == 0 && forall c: nat :: c < b ==> c in v.blkUsed
    {
      var used := GetBit(disk, sb.bbStart, b);
      assert used == (b in v.blkUsed) by { MarkedBit(sb, disk, b); }
      if !used { errors := errors + 1; }
    }
    ghost var e2 := errors;
    for b := sb.dataStart to sb.total
      invariant errors == 0 <==> e2 == 0 && forall c :: sb.dataStart <= c < b && c in v.blkUsed ==> c in refs
    {
      var used := GetBit(disk, sb.bbStart, b);
      assert used == (b in v.blkUsed) by { MarkedBit(sb, disk, b); }
      if used && b !in refs { errors := errors + 1; }
    }
    return errors == 0;
  }

  lemma PassesSmall(sb: Superblock, v: Vol)
    ensures Passes(sb, v) ==> AllSmall(v)
  {
  }
}
