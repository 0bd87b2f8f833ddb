/** What the calls of kernel/fs/kfs.c answer, read off the entries of a directory, the
    types and sizes of inodes and the count of free blocks. */
module KfsStatus {
  import opened Bits
  import opened KfsFormat
  import opened KfsDevice
  import opened KfsPages
  import opened KfsFile
  import opened KfsContent
  import opened KfsVolume
  import opened KfsDirent
  import opened KfsNames
  import opened KfsNamespace
  import opened KfsCreate

  // -------------------------------------------------- entries of a directory

  ghost predicate IsFileAt(v: Vol, i: nat)
  {
    i in v.inoUsed && i < |v.inodes| && v.inodes[i].typ == TYPE_FILE
  }

  /** The namespace's directories are the allocated inodes of that type. */
  lemma DirsAre(v: Vol, d: nat)
    ensures d in NamesOf(v).dirs <==> d in v.inoUsed && d < |v.inodes| && v.inodes[d].typ == TYPE_DIR
  {
  }

  lemma InvSized(sb: Superblock, v: Vol)
    requires FsInv(sb, v)
    ensures |v.inodes| == sb.inodeCount && forall i :: i in v.inoUsed ==> i < |v.inodes|
  {
  }

  /** In a sound volume a name has at most one entry, and its inode is allocated and
      a file or a directory. */
  lemma ListedOnce(sb: Superblock, v: Vol, d: nat, name: Name, c: nat)
    requires FsInv(sb, v) && Lists(NamesOf(v), d, name, c) && name != [46] && name != [46, 46]
    ensures forall c': nat :: Lists(NamesOf(v), d, name, c') ==> c' == c
    ensures c in v.inoUsed && (IsFileAt(v, c) <==> !IsDirAt(v, c))
  {
    hide Sound, FileAt, IndexOf, EntriesOf, NodesOk, Tree;
    var es := NamesOf(v).dirs[d];
    TreeUnique(NamesOf(v), d);
    var i: nat :| i < |es| && es[i].name == name && es[i].ino == c;
    assert es == EntriesOf(FileAt(v, d));
    EntryTarget(sb, v, d, i);
    hide IsFileAt, IsDirAt, NamesOf;
    forall c': nat | Lists(NamesOf(v), d, name, c') ensures c' == c {
      var j :| 0 <= j < |es| && es[j].name == name && es[j].ino == c';
      assert i == j;
    }
  }

  /** The entry that the search for a name finds is the one the name is listed under. */
  lemma Found(sb: Superblock, v: Vol, d: nat, name: Name) returns (c: nat)
    requires FsInv(sb, v) && IsDirAt(v, d)
    ensures var es := EntriesOf(FileAt(v, d));
            if IndexOf(es, name) < |es| then c == es[IndexOf(es, name)].ino && Lists(NamesOf(v), d, name, c)
            else forall x: nat :: !Lists(NamesOf(v), d, name, x)
  {
    hide FileAt, EntriesOf, Sound;
    var es := EntriesOf(FileAt(v, d));
    assert NamesOf(v).dirs[d] == es;
    c := if IndexOf(es, name) < |es| then es[IndexOf(es, name)].ino else 0;
  }

  /** Every entry, `.` and `..` included, is for an allocated inode and records whether
      that inode is a directory. */
  lemma EntryType(sb: Superblock, v: Vol, d: nat, i: nat)
    requires FsInv(sb, v) && IsDirAt(v, d) && i < |EntriesOf(FileAt(v, d))|
    ensures var e := EntriesOf(FileAt(v, d))[i];
            e.ino in v.inoUsed && (e.typ == DIR8 <==> e.ino in NamesOf(v).dirs)
  {
    hide Sound, FileAt, EntriesOf, NodesOk;
    var ns, e := NamesOf(v), EntriesOf(FileAt(v, d))[i];
    assert ns.dirs[d] == EntriesOf(FileAt(v, d));
    if !IsDots(e.name) {
      EntryTarget(sb, v, d, i);
    } else {
      hide NamesOf;
      DotType(ns, d, i);
      NamesUsed(v);
    }
  }

  lemma DotType(ns: Names, d: nat, i: nat)
    requires Tree(ns) && d in ns.dirs && i < |ns.dirs[d]| && IsDots(ns.dirs[d][i].name)
    ensures ns.dirs[d][i].typ == DIR8 && ns.dirs[d][i].ino in ns.dirs && ns.dirs[d][i].ino in ns.used
  {
    hide LinksOk, LinkedOnce, Deeper, ValidEntries;
    var par, depth :| TreeBy(ns, par, depth);
    assert d != ROOT && DotsOk(ns.dirs[d], d, par[d]);
    assert UniqueNames(ns.dirs[d]);
    assert i == 0 || i == 1;
    var j: nat :| Link(ns, par[d], j, d);
  }

  lemma EmptyListing(sb: Superblock, v: Vol, d: nat)
    requires FsInv(sb, v) && IsDirAt(v, d)
    ensures EntriesOf(FileAt(v, d)) == [] <==> v.inodes[d].size == 0
  {
    hide Sound, Parse, Tree;
    DirEntries(v, d);
    EmptyDir(Content(FileAt(v, d)));
  }

  // ---------------------------------------------------------------- statuses

  /** Lookup on a sound volume: `.` and the root's `..` are the directory itself, any
      other name is what the directory lists, and the type answered is the inode's. */
  lemma LookupMeans(sb: Superblock, v: Vol, d: nat, name: Name)
    requires FsInv(sb, v) && d in NamesOf(v).dirs
    ensures var (st, ino, isDir) := LookupSpec(EntriesOf(FileAt(v, d)), d, name);
            && (st == OK ==> ino in v.inoUsed && (isDir <==> ino in NamesOf(v).dirs))
            && (name == [46] || (d == 0 && name == [46, 46]) ==> st == OK && ino == d)
            && (name != [46] && !(d == 0 && name == [46, 46]) ==>
                  && (st == OK <==> exists c: nat :: Lists(NamesOf(v), d, name, c))
                  && (st == OK ==> Lists(NamesOf(v), d, name, ino))
                  && (st == ENOMEM <==> v.inodes[d].size == 0)
                  && (st == ENOENT <==> v.inodes[d].size > 0 && forall c: nat :: !Lists(NamesOf(v), d, name, c)))
  {
    hide Sound, FileAt, IndexOf, EntriesOf, NodesOk, Tree;
    DirsAre(v, d);
    InvSized(sb, v);
    hide NamesOf, Lists;
    var c := Found(sb, v, d, name);
    EmptyListing(sb, v, d);
    var es := EntriesOf(FileAt(v, d));
    if IndexOf(es, name) < |es| { EntryType(sb, v, d, IndexOf(es, name)); }
  }

  /** Unlink: which names it accepts, and how it refuses the others. */
  lemma UnlinkMeans(sb: Superblock, v: Vol, d: nat, name: Name)
    requires FsInv(sb, v)
    ensures var st := UnlinkStatus(sb, v, d, name);
            if name == [46] || name == [46, 46] || d >= sb.inodeCount then st == EINVAL
            else if d !in v.inoUsed then st == ENOENT
            else if v.inodes[d].typ != TYPE_DIR then st == ENOTDIR
            else
              && (st == OK <==> exists c: nat :: Lists(NamesOf(v), d, name, c) && IsFileAt(v, c))
              && (st == EISDIR <==> exists c: nat :: Lists(NamesOf(v), d, name, c) && IsDirAt(v, c))
              && (st == ENOENT <==> forall c: nat :: !Lists(NamesOf(v), d, name, c))
  {
    hide Sound, FileAt, IndexOf, EntriesOf, NodesOk, Tree;
    InvSized(sb, v);
    if name != [46] && name != [46, 46] && IsDirAt(v, d) {
      hide NamesOf, Lists;
      var c := Found(sb, v, d, name);
      DirsAre(v, d);
      if Lists(NamesOf(v), d, name, c) { ListedOnce(sb, v, d, name, c); DirsAre(v, c); }
    }
  }

  /** Rmdir: the same for directories. */
  lemma RmdirMeans(sb: Superblock, v: Vol, d: nat, name: Name)
    requires FsInv(sb, v)
    ensures var st := RmdirStatus(sb, v, d, name);
            if name == [46] || name == [46, 46] || d >= sb.inodeCount then st == EINVAL
            else if d !in v.inoUsed then st == ENOENT
            else if v.inodes[d].typ != TYPE_DIR then st == ENOTDIR
            else
              && (st == OK <==> exists c: nat :: Lists(NamesOf(v), d, name, c) && IsDirAt(v, c) && NamesNothing(v, c))
              && (st == ENOTEMPTY <==>
                    exists c: nat :: Lists(NamesOf(v), d, name, c) && IsDirAt(v, c) && !NamesNothing(v, c))
              && (st == ENOTDIR <==> exists c: nat :: Lists(NamesOf(v), d, name, c) && IsFileAt(v, c))
              && (st == ENOENT <==> forall c: nat :: !Lists(NamesOf(v), d, name, c))
  {
    hide Sound, FileAt, IndexOf, EntriesOf, NodesOk, Tree;
    InvSized(sb, v);
    if name != [46] && name != [46, 46] && IsDirAt(v, d) {
      hide Lists;
      var c := Found(sb, v, d, name);
      DirsAre(v, d);
      if Lists(NamesOf(v), d, name, c) {
        ListedOnce(sb, v, d, name, c);
        DirsAre(v, c);
        if IsDirAt(v, c) { NothingNamed(v, c); }
      }
    }
  }

  /** No entry of directory `c` but `.` and `..`. */
  ghost predicate NamesNothing(v: Vol, c: nat)
  {
    forall name: Name, x: nat :: Lists(NamesOf(v), c, name, x) ==> name == [46] || name == [46, 46]
  }

  lemma NothingNamed(v: Vol, c: nat)
    requires c in NamesOf(v).dirs
    ensures NamesNothing(v, c) <==> OnlyDots(NamesOf(v).dirs[c])
  {
    hide NamesOf;
    var es := NamesOf(v).dirs[c];
    if NamesNothing(v, c) {
      forall i | 0 <= i < |es| ensures IsDots(es[i].name) { assert Lists(NamesOf(v), c, es[i].name, es[i].ino); }
    }
  }

  /** Create with a name that is not there yet: whether there is an inode, a block for
      a new directory's own entries, and room for the record. A directory whose size
      is a multiple of 512 needs a block for it, and from the eleventh block on an
      indirect block as well. */
  lemma CreateMeans(sb: Superblock, v: Vol, d: nat, name: Name, isDir: bool)
    requires FsInv(sb, v) && NoNul(name)
    ensures |v.inodes| == sb.inodeCount
    ensures
      var st := CreateStatus(sb, v, d, name, isDir);
      var free := |set b: nat | sb.dataStart <= b < sb.total && b !in v.blkUsed|;
      if d >= sb.inodeCount then st == EINVAL
      else if d !in v.inoUsed then st == ENOENT
      else if v.inodes[d].typ != TYPE_DIR then st == ENOTDIR
      else if |name| == 0 || |name| > 255 then st == EINVAL
      else if name == [46] || name == [46, 46] then st == EEXIST
      else if exists c: nat :: Lists(NamesOf(v), d, name, c) then st == if isDir then EEXIST else OK
      else if (forall j :: 1 <= j < sb.inodeCount ==> j in v.inoUsed) || (isDir && free == 0) then st == ENOSPC
      else
        var size, left := v.inodes[d].size as nat, if isDir then free - 1 else free;
        if size % 512 != 0 then st == OK
        else if size == 138 * 512 then st == EFBIG
        else st == if left < (if size >= 10 * 512 && v.inodes[d].indirect == 0 then 2 else 1) then ENOSPC else OK
  {
    hide Sound, FileAt, IndexOf, EntriesOf, NodesOk, Tree;
    InvSized(sb, v);
    if IsDirAt(v, d) {
      hide Lists;
      DirsAre(v, d);
      var c := Found(sb, v, d, name);
      RoomMeans(sb, v, d, Left(sb, v, isDir));
    }
  }

  /** The page behind the last one of a directory is not there yet. */
  lemma NextPage(sb: Superblock, v: Vol, d: nat)
    requires FsInv(sb, v) && IsDirAt(v, d)
    ensures v.inodes[d].size <= 138 * 512
    ensures forall lb: nat :: BlocksFor(v.inodes[d].size) <= lb < MAX_BLOCKS ==> !IsMapped(v.inodes[d], v.data, lb)
  {
    hide Sound, Tree, NamesOf, Ptr, Content, WellFormed, Pages;
    DirEntries(v, d);
    var f := FileAt(v, d);
    assert f.mapped == Below(BlocksFor(f.size));
    forall lb: nat | BlocksFor(f.size) <= lb < MAX_BLOCKS ensures !IsMapped(v.inodes[d], v.data, lb) {
      assert lb !in f.mapped;
    }
  }

  lemma RoomMeans(sb: Superblock, v: Vol, d: nat, free: int)
    requires FsInv(sb, v) && IsDirAt(v, d)
    ensures v.inodes[d].size <= 138 * 512
    ensures NoRoom(free, v.inodes[d], v.data) <==>
              && v.inodes[d].size % 512 == 0
              && (v.inodes[d].size == 138 * 512
                  || free < (if v.inodes[d].size >= 10 * 512 && v.inodes[d].indirect == 0 then 2 else 1))
  {
    hide FsInv, IsMapped;
    NextPage(sb, v, d);
  }

  /** A create is cut short exactly when the record does not fit in what is left of the
      last block and the next block cannot be had. */
  lemma ShortMeans(sb: Superblock, v: Vol, d: nat, name: Name, isDir: bool)
    requires FsInv(sb, v)
    ensures |v.inodes| == sb.inodeCount
    ensures
      var free := |set b: nat | sb.dataStart <= b < sb.total && b !in v.blkUsed|;
      ShortCreate(sb, v, d, name, isDir) <==>
        && IsDirAt(v, d) && 1 <= |name| <= 255 && NoNul(name) && name != [46] && name != [46, 46]
        && (forall c: nat :: !Lists(NamesOf(v), d, name, c))
        && (exists j :: 1 <= j < sb.inodeCount && j !in v.inoUsed) && (isDir ==> free > 0)
        && var size, left := v.inodes[d].size as nat, if isDir then free - 1 else free;
           && 512 < size % 512 + (11 + |name|) / 4 * 4 && 0 < size % 512
           && (size > 137 * 512 || left < (if size > 9 * 512 && v.inodes[d].indirect == 0 then 2 else 1))
  {
    hide FsInv, FileAt, IndexOf, EntriesOf, NamesOf, Lists, Need;
    InvSized(sb, v);
    if d < |v.inodes| && IsDirAt(v, d) {
      var c := Found(sb, v, d, name);
      RoomMeans(sb, v, d, Left(sb, v, isDir));
      StuckMeans(sb, v, d, Left(sb, v, isDir));
    }
  }

  lemma StuckMeans(sb: Superblock, v: Vol, d: nat, free: int)
    requires FsInv(sb, v) && IsDirAt(v, d)
    ensures var size := v.inodes[d].size as nat;
            size % 512 != 0 ==>
              (StuckWith(free, v.inodes[d], v.data, (size / 512 + 1) * 512) <==>
               size > 137 * 512 || free < (if size > 9 * 512 && v.inodes[d].indirect == 0 then 2 else 1))
  {
    hide FsInv, IsMapped;
    NextPage(sb, v, d);
    var size := v.inodes[d].size as nat;
    assert (size / 512 + 1) * 512 / 512 == size / 512 + 1;
  }

  /** And it loses a block exactly when its record needs an indirect block and a data
      block, and one is free. */
  lemma LosesMeans(sb: Superblock, v: Vol, d: nat, name: Name, isDir: bool)
    requires FsInv(sb, v)
    ensures |v.inodes| == sb.inodeCount
    ensures
      var free := |set b: nat | sb.dataStart <= b < sb.total && b !in v.blkUsed|;
      MakesNew(sb, v, d, name) && LosesBlock(sb, v, d, isDir) <==>
        && IsDirAt(v, d) && 1 <= |name| <= 255 && NoNul(name) && name != [46] && name != [46, 46]
        && (forall c: nat :: !Lists(NamesOf(v), d, name, c))
        && (exists j :: 1 <= j < sb.inodeCount && j !in v.inoUsed)
        && v.inodes[d].size % 512 == 0 && 10 * 512 <= v.inodes[d].size < 138 * 512 && v.inodes[d].indirect == 0
        && free == if isDir then 2 else 1
  {
    hide FsInv, FileAt, IndexOf, EntriesOf, NamesOf, Lists, Need;
    InvSized(sb, v);
    if d < |v.inodes| && IsDirAt(v, d) {
      var c := Found(sb, v, d, name);
      RoomMeans(sb, v, d, Left(sb, v, isDir));
    }
  }

  // ------------------------------------------------------------- bytes of a file

  /** The block that holds byte `p` of a file, 0 in a hole: ten direct pointers, then
      the words of the indirect block. */
  function HomeOf(n: Inode, data: DataMap, p: nat): nat
    requires p < 138 * 512
  {
    if p < 10 * 512 then n.direct[p / 512]
    else if n.indirect in data then U32At(data[n.indirect], 4 * (p / 512 - 10))
    else 0
  }

  lemma HomeIsPtr(n: Inode, data: DataMap, p: nat)
    requires p < 138 * 512
    ensures Ptr(n, data, SlotOf(p / 512)) == HomeOf(n, data, p)
  {
    hide U32At;
  }

  /** Byte `p` of a file is byte `p % 512` of the block it points to for it. */
  lemma ContentOnDisk(v: Vol, ino: nat, p: nat)
    requires ino < |v.inodes| && p < v.inodes[ino].size <= 138 * 512
    ensures var b := HomeOf(v.inodes[ino], v.data, p);
            Content(FileAt(v, ino))[p] == if b != 0 && b in v.data then v.data[b][p % 512] else 0
  {
    hide HomeOf, Ptr, SlotOf;
    HomeIsPtr(v.inodes[ino], v.data, p);
  }

  /** A write finds no block for position `p` exactly when the position lies behind the
      largest file, or nothing is mapped there and too few blocks are free: two are
      needed when the indirect block is missing as well. */
  lemma NoBlockMeans(sb: Superblock, v: Vol, ino: nat, p: nat)
    requires ino < |v.inodes|
    ensures
      var n, free := v.inodes[ino], |set b: nat | sb.dataStart <= b < sb.total && b !in v.blkUsed|;
      Stuck(sb, v, n, p) <==>
        p >= 138 * 512 || (HomeOf(n, v.data, p) == 0 && free < (if p >= 10 * 512 && n.indirect == 0 then 2 else 1))
  {
    hide HomeOf, Ptr, SlotOf;
    if p < 138 * 512 { HomeIsPtr(v.inodes[ino], v.data, p); }
  }
}
