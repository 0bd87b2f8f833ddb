/** Lookup, create, unlink and rmdir (kernel/fs/kfs.c:273-334, 543-852), and the
    invariant of the whole file system that every run keeps. */
module KfsNamespace {
  import opened Bits
  import opened KfsFormat
  import opened KfsDevice
  import opened KfsPages
  import opened KfsFile
  import opened KfsContent
  import opened KfsVolume
  import opened KfsDirent
  import opened KfsDir
  import opened KfsNames

  // -------------------------------------------------------- the invariant

  /** A file may have holes, but nothing past its end. */
  ghost predicate Fine(f: FileState)
  {
    |f.pages| == MAX_BLOCKS && f.size <= MAX_SIZE && f.mapped <= Below(BlocksFor(f.size)) && ZeroTail(f)
  }

  ghost predicate DirFile(f: FileState)
  {
    Solid(f) && WellFormed(Content(f))
  }

  ghost predicate NodeOk(v: Vol, i: nat)
  {
    && i < |v.inodes|
    && (v.inodes[i].typ == TYPE_FILE || v.inodes[i].typ == TYPE_DIR)
    && (v.inodes[i].typ == TYPE_FILE ==> Fine(FileAt(v, i)))
    && (v.inodes[i].typ == TYPE_DIR ==> DirFile(FileAt(v, i)))
  }

  ghost function EntriesOf(f: FileState): seq<Entry>
  {
    if |f.pages| == MAX_BLOCKS && f.size <= MAX_SIZE then Parse(Content(f)) else []
  }

  ghost predicate IsDirAt(v: Vol, i: nat)
  {
    i in v.inoUsed && i < |v.inodes| && v.inodes[i].typ == TYPE_DIR
  }

  /** The namespace that a volume denotes. */
  ghost function NamesOf(v: Vol): Names
  {
    Names(v.inoUsed, map i | i in v.inoUsed && IsDirAt(v, i) :: EntriesOf(FileAt(v, i)))
  }

  ghost predicate NodesOk(v: Vol)
  {
    forall i :: i in v.inoUsed ==> NodeOk(v, i)
  }

  /** The invariant: block ownership, well-formed files and directories, and a
      namespace that is a tree. */
  ghost predicate FsInv(sb: Superblock, v: Vol)
  {
    Sound(sb, v) && NodesOk(v) && Tree(NamesOf(v))
  }

  lemma KeptNode(v: Vol, v': Vol, S: set<nat>, i: nat)
    requires Keeps(v, v', S) && i in S && NodeOk(v, i)
    ensures NodeOk(v', i)
  {
  }

  /** If every allocated inode keeps its file, the namespace is the same. */
  lemma SameNames(v: Vol, v': Vol)
    requires v'.inoUsed == v.inoUsed && Keeps(v, v', v.inoUsed)
    ensures NamesOf(v') == NamesOf(v)
    ensures NodesOk(v) ==> NodesOk(v')
  {
    hide FileAt, EntriesOf, DirFile, Fine;
  }

  /** If only directory `d` changed, only its entries changed. */
  lemma OneDirChanged(v: Vol, v': Vol, d: nat)
    requires v'.inoUsed == v.inoUsed && Keeps(v, v', v.inoUsed - {d}) && IsDirAt(v, d) && IsDirAt(v', d)
    ensures d in NamesOf(v).dirs
    ensures NamesOf(v') == Names(v.inoUsed, NamesOf(v).dirs[d := EntriesOf(FileAt(v', d))])
    ensures NodesOk(v) && DirFile(FileAt(v', d)) ==> NodesOk(v')
  {
    hide FileAt, EntriesOf, DirFile, Fine;
  }

  /** If only the file `i` changed, the namespace is the same. */
  lemma OneFileChanged(v: Vol, v': Vol, i: nat)
    requires v'.inoUsed == v.inoUsed && Keeps(v, v', v.inoUsed - {i}) && i in v.inoUsed && i < |v.inodes|
    requires v.inodes[i].typ == v'.inodes[i].typ == TYPE_FILE
    ensures NamesOf(v') == NamesOf(v)
    ensures NodesOk(v) && Fine(FileAt(v', i)) ==> NodesOk(v')
  {
    hide FileAt, EntriesOf, DirFile, Fine;
  }

  /** Without inode `t`, the namespace lacks that inode and its entries. */
  lemma InodeGone(v: Vol, v': Vol, t: nat)
    requires v'.inoUsed == v.inoUsed - {t} && Keeps(v, v', v'.inoUsed)
    ensures NamesOf(v') == Names(v.inoUsed - {t}, NamesOf(v).dirs - {t})
    ensures NodesOk(v) ==> NodesOk(v')
  {
    hide FileAt, EntriesOf, DirFile, Fine;
  }

  /** An entry of a directory names an allocated inode of the type it records. */
  lemma EntryTarget(sb: Superblock, v: Vol, d: nat, i: nat)
    requires FsInv(sb, v) && IsDirAt(v, d) && i < |EntriesOf(FileAt(v, d))|
    requires !IsDots(EntriesOf(FileAt(v, d))[i].name)
    ensures var e := EntriesOf(FileAt(v, d))[i];
            && e.ino in v.inoUsed && e.ino != d && e.ino != ROOT && e.ino < |v.inodes|
            && (v.inodes[e.ino].typ == TYPE_DIR <==> e.ino in NamesOf(v).dirs)
            && v.inodes[e.ino].typ == (if e.typ == DIR8 then TYPE_DIR else TYPE_FILE)
            && (e.typ == DIR8 || e.typ == FILE8)
  {
    hide FileAt, EntriesOk, LinkedOnce, AllLinked, AllDots, Sound, DirFile, Fine;
    var ns := NamesOf(v);
    var e := EntriesOf(FileAt(v, d))[i];
    var par, depth :| TreeBy(ns, par, depth);
    assert ns.dirs[d] == EntriesOf(FileAt(v, d));
    ChildOf(ns, d, i, par, depth);
    assert Link(ns, d, i, e.ino);
    assert NodeOk(v, e.ino) by { assert Sound(sb, v); }
  }

  // --------------------------------------------------------------- lookup

  /** What lookup answers on a directory with entries `es`. An empty directory
      makes the kernel ask its allocator for zero bytes, which fails. */
  ghost function LookupSpec(es: seq<Entry>, d: nat, name: Name): (r: (Status, nat, bool))
  {
    if name == Dot || (d == ROOT && name == DotDot) then (OK, d, true)
    else if es == [] then (ENOMEM, 0, false)
    else
      var i := IndexOf(es, name);
      if i < |es| then (OK, es[i].ino, es[i].typ == DIR8) else (ENOENT, 0, false)
  }

  lemma EmptyDir(data: seq<U8>)
    requires WellFormed(data)
    ensures |data| == 0 <==> Parse(data) == []
  {
  }

  /** kfs_vnode_lookup: the first entry of that name. */
  method Lookup(k: Kfs, d: nat, name: Name) returns (st: Status, ino: nat, isDir: bool)
    requires k.Valid() && FsInv(k.sb, k.V())
    ensures d >= k.sb.inodeCount ==> st == EINVAL
    ensures d < k.sb.inodeCount && d !in k.V().inoUsed ==> st == ENOENT
    ensures d in k.V().inoUsed && !IsDirAt(k.V(), d) ==> st == ENOTDIR
    ensures IsDirAt(k.V(), d) ==> (st, ino, isDir) == LookupSpec(EntriesOf(FileAt(k.V(), d)), d, name)
  {
    hide Kfs.V, Kfs.Valid, Parse, EncodeAll, Content, IndexOf, Owns, Tree, WellFormed;
    ino, isDir := 0, false;
    var n;
    st, n := k.ReadInode(d);
    if st != OK { return; }
    if n.typ != TYPE_DIR { return ENOTDIR, 0, false; }
    if name == [46] { return OK, d, true; }
    if d == k.sb.root && name == [46, 46] { return OK, d, true; }
    assert DirFile(FileAt(k.V(), d));
    ghost var data := Content(FileAt(k.V(), d));
    EmptyDir(data);
    if n.size == 0 { return ENOMEM, 0, false; }
    var dirData := ReadAll(k, n);
    var found, off := FindEntry(dirData, name);
    if !found { return ENOENT, 0, false; }
    ghost var i := IndexOf(Parse(dirData), name);
    EntryRead(dirData, i);
    return OK, RecordIno(dirData, off), dirData[off + 6] == 2;
  }

  /** The record found by the scan reads back as the entry. */
  lemma EntryRead(data: seq<U8>, i: nat)
    requires WellFormed(data) && i < |Parse(data)|
    ensures var e, off := Parse(data)[i], Offset(Parse(data), i);
            && off + 8 <= off + RecLen(e.name) <= |data|
            && RecordIno(data, off) == e.ino && data[off + 6] == e.typ && RecordLen(data, off) == RecLen(e.name)
  {
    hide Parse, EncodeAll, Encode, RecLen;
    var es := Parse(data);
    RecordAt(es, i);
    RecordRoundTrip(data, Offset(es, i), es[i]);
  }

  // ------------------------------------------------------ unlink and rmdir

  /** Lines 602-607: release the target's blocks, then its inode. */
  method ReleaseInode(k: Kfs, t: nat, tn: Inode)
    requires k.Valid() && t in k.V().inoUsed && t != 0 && tn == k.V().inodes[t] && Owns(k.sb, k.V(), tn)
    modifies k.disk, k.blockBitmap, k.inodeBitmap
    ensures k.Valid() && Shrunk(old(k.V()), t, k.V())
  {
    hide Kfs.V, Kfs.Valid, Owns, Blocks;
    var tn' := FreeInodeBlocks(k, tn);
    tn' := tn'.(size := 0, typ := 0, links := 0);
    var r := k.WriteInode(t, tn');
    r := k.FreeInode(t);
  }

  /** What is left to do once the inode is gone: the record, at `off`. */
  ghost predicate Pending(sb: Superblock, v: Vol, d: nat, n: Inode, data: seq<U8>)
  {
    && Sound(sb, v) && NodesOk(v) && IsDirAt(v, d) && n == v.inodes[d] && FileAt(v, d) == FileOf(n, v.data)
    && DirFile(FileAt(v, d)) && Content(FileAt(v, d)) == data && Owns(sb, v, n)
  }

  lemma AfterRelease(sb: Superblock, v: Vol, d: nat, i: nat, data: seq<U8>, t: nat, v1: Vol)
    requires FsInv(sb, v) && IsDirAt(v, d) && DirFile(FileAt(v, d)) && data == Content(FileAt(v, d))
    requires i < |Parse(data)|
    requires !IsDots(Parse(data)[i].name) && t == Parse(data)[i].ino && Shrunk(v, t, v1) && WellSized(sb, v1)
    ensures Pending(sb, v1, d, v.inodes[d], data) && t != d
    ensures NamesOf(v1) == Names(v.inoUsed - {t}, NamesOf(v).dirs - {t})
    ensures Keeps(v, v1, v.inoUsed - {t}) && (NoLeak(sb, v) <==> NoLeak(sb, v1))
  {
    hide Parse, Content, Owns, WellFormed, Sound, NoLeak, FileAt, Tree, NamesOf, BlocksAt, IsDots;
    assert EntriesOf(FileAt(v, d)) == Parse(data);
    EntryTarget(sb, v, d, i);
    ShrunkSound(sb, v, t, v1);
    InodeGone(v, v1, t);
    SoundOwns(sb, v1, d);
    FileAtOf(v1, d);
  }

  lemma AfterCut(sb: Superblock, v1: Vol, d: nat, n: Inode, data: seq<U8>, i: nat, v2: Vol)
    requires Pending(sb, v1, d, n, data) && FileStep(sb, v1, d, v2) && WellSized(sb, v2) && i < |Parse(data)|
    requires var off, len := Offset(Parse(data), i), RecLen(Parse(data)[i].name);
             && off + len <= |data| && Solid(FileOf(v2.inodes[d], v2.data))
             && Content(FileOf(v2.inodes[d], v2.data)) == Cut(data, off, len)
    ensures IsDirAt(v2, d) && Sound(sb, v2) && NodesOk(v2) && Keeps(v1, v2, v1.inoUsed - {d})
    ensures v2.inoUsed == v1.inoUsed && (NoLeak(sb, v1) <==> NoLeak(sb, v2))
    ensures d in NamesOf(v1).dirs
    ensures NamesOf(v2) == Names(v1.inoUsed, NamesOf(v1).dirs[d := Parse(data)[..i] + Parse(data)[i + 1..]])
  {
    hide Parse, Content, Owns, WellFormed, Sound, NoLeak, FileAt, NamesOf, EncodeAll, RecLen;
    assert IsDirAt(v2, d) by { hide Step; assert FileStep(sb, v1, d, v2); FileStepKeeps(sb, v1, d, v2); }
    FileStepKeeps(sb, v1, d, v2);
    FileAtOf(v2, d);
    CutRecord(data, i);
    OneDirChanged(v1, v2, d);
  }

  /** The common end of unlink and rmdir: release the target's blocks and inode,
      then cut its record out of the directory. */
  method RemoveTarget(k: Kfs, d: nat, n: Inode, off: nat, dirData: seq<U8>, ghost i: nat, t: nat, tn: Inode)
    returns (st: Status)
    requires k.Valid() && FsInv(k.sb, k.V()) && IsDirAt(k.V(), d) && n == k.V().inodes[d] && DirFile(FileAt(k.V(), d))
    requires dirData == Content(FileAt(k.V(), d)) && i < |Parse(dirData)| && off == Offset(Parse(dirData), i)
    requires !IsDots(Parse(dirData)[i].name) && t == Parse(dirData)[i].ino && t in k.V().inoUsed
    requires tn == k.V().inodes[t]
    requires t in NamesOf(k.V()).dirs ==> OnlyDots(NamesOf(k.V()).dirs[t])
    modifies k.disk, k.blockBitmap, k.inodeBitmap
    ensures k.Valid() && st == OK && FsInv(k.sb, k.V())
    ensures d in NamesOf(old(k.V())).dirs && NamesOf(old(k.V())).dirs[d] == Parse(dirData)
    ensures NamesOf(k.V()) == Remove(NamesOf(old(k.V())), d, i)
    ensures Keeps(old(k.V()), k.V(), old(k.V()).inoUsed - {t, d}) && IsDirAt(k.V(), d) && Tight(k.V().inodes[d])
    ensures k.V().inoUsed == old(k.V()).inoUsed - {t}
    ensures NoLeak(k.sb, old(k.V())) <==> NoLeak(k.sb, k.V())
  {
    hide Kfs.V, Kfs.Valid, Parse, EncodeAll, Content, Owns, WellFormed, Sound, NoLeak, FileAt, Remove, RecLen, Tree,
      NamesOf, NodesOk, Keeps, FileStep, IsDots, OnlyDots;
    ghost var v := k.V();
    DirEntries(v, d);
    RemoveTree(NamesOf(v), d, i);
    EntryTarget(k.sb, v, d, i);
    assert Owns(k.sb, v, tn) by { SoundOwns(k.sb, v, t); }
    ReleaseInode(k, t, tn);
    ghost var v1 := k.V();
    AfterRelease(k.sb, v, d, i, dirData, t, v1);
    EntryRead(dirData, i);
    var len := RecordLen(dirData, off);
    st := RemoveDirent(k, d, n, off, len, dirData);
    ghost var v2 := k.V();
    AfterCut(k.sb, v1, d, n, dirData, i, v2);
    NamesUsed(v);
    NamesUsed(v1);
    RemoveParts(NamesOf(v), d, i, NamesOf(v1), NamesOf(v2));
    KeepsTrans(v, v1, v2, v.inoUsed - {t}, v1.inoUsed - {d});
    assert (v.inoUsed - {t}) * (v1.inoUsed - {d}) == v.inoUsed - {t, d};
  }

  lemma NamesUsed(v: Vol)
    ensures NamesOf(v).used == v.inoUsed
  {
  }

  lemma DirEntries(v: Vol, d: nat)
    requires NodesOk(v) && IsDirAt(v, d)
    ensures DirFile(FileAt(v, d)) && d in NamesOf(v).dirs && NamesOf(v).dirs[d] == EntriesOf(FileAt(v, d))
    ensures EntriesOf(FileAt(v, d)) == Parse(Content(FileAt(v, d)))
  {
    hide FileAt;
    assert NodeOk(v, d);
  }

  lemma SoundOwns(sb: Superblock, v: Vol, i: nat)
    requires Sound(sb, v) && i in v.inoUsed
    ensures i < |v.inodes| && Owns(sb, v, v.inodes[i]) && WellSized(sb, v)
  {
  }

  lemma FileAtOf(v: Vol, i: nat)
    requires i < |v.inodes|
    ensures FileAt(v, i) == FileOf(v.inodes[i], v.data)
  {
  }

  lemma RemoveParts(ns: Names, d: nat, i: nat, ns1: Names, ns2: Names)
    requires d in ns.dirs && i < |ns.dirs[d]| && ns.dirs[d][i].ino != d
    requires ns1 == Names(ns.used - {ns.dirs[d][i].ino}, ns.dirs - {ns.dirs[d][i].ino})
    requires d in ns1.dirs && ns2 == Names(ns1.used, ns1.dirs[d := ns.dirs[d][..i] + ns.dirs[d][i + 1..]])
    ensures ns2 == Remove(ns, d, i)
  {
  }

  /** What unlink answers. */
  ghost function UnlinkStatus(sb: Superblock, v: Vol, d: nat, name: Name): Status
  {
    if IsDots(name) then EINVAL
    else if d >= sb.inodeCount then EINVAL
    else if d !in v.inoUsed then ENOENT
    else if !IsDirAt(v, d) then ENOTDIR
    else
      var es := EntriesOf(FileAt(v, d));
      var i := IndexOf(es, name);
      if i >= |es| then ENOENT
      else if es[i].ino in NamesOf(v).dirs then EISDIR else OK
  }

  /** kfs_vnode_unlink: on success the named file and its entry are gone, its
      blocks are free, and every other file is as it was; on failure nothing
      changes. */
  method Unlink(k: Kfs, d: nat, name: Name) returns (st: Status)
    requires k.Valid() && FsInv(k.sb, k.V())
    modifies k.disk, k.blockBitmap, k.inodeBitmap
    ensures k.Valid() && FsInv(k.sb, k.V())
    ensures st == UnlinkStatus(k.sb, old(k.V()), d, name)
    ensures st != OK ==> k.V() == old(k.V())
    ensures st == OK ==>
      var ns := NamesOf(old(k.V()));
      && d in ns.dirs && IndexOf(ns.dirs[d], name) < |ns.dirs[d]|
      && NamesOf(k.V()) == Remove(ns, d, IndexOf(ns.dirs[d], name))
      && Keeps(old(k.V()), k.V(), old(k.V()).inoUsed - {ns.dirs[d][IndexOf(ns.dirs[d], name)].ino, d})
      && k.V().inoUsed == old(k.V()).inoUsed - {ns.dirs[d][IndexOf(ns.dirs[d], name)].ino as nat}
      && IsDirAt(k.V(), d) && Tight(k.V().inodes[d])
    ensures NoLeak(k.sb, old(k.V())) <==> NoLeak(k.sb, k.V())
  {
    hide Kfs.V, Kfs.Valid, Parse, EncodeAll, Content, IndexOf, Owns, WellFormed, Sound, NoLeak, FileAt, Remove, Tree;
    hide Keeps;
    if name == [46] || name == [46, 46] { return EINVAL; }
    var n;
    st, n := k.ReadInode(d);
    if st != OK { return; }
    if n.typ != TYPE_DIR { return ENOTDIR; }
    ghost var v := k.V();
    DirEntries(v, d);
    FileAtOf(v, d);
    ghost var data := Content(FileAt(v, d));
    EmptyDir(data);
    if n.size == 0 { return ENOENT; }
    assert Owns(k.sb, v, n) by { SoundOwns(k.sb, v, d); }
    var dirData := ReadAll(k, n);
    var found, off := FindEntry(dirData, name);
    if !found { return ENOENT; }
    ghost var i := IndexOf(Parse(dirData), name);
    EntryRead(dirData, i);
    EntryTarget(k.sb, v, d, i);
    var t: nat := RecordIno(dirData, off);
    var tn;
    st, tn := k.ReadInode(t);
    assert st == OK by { SoundOwns(k.sb, v, t); }
    if st != OK { return; }
    if tn.typ == TYPE_DIR { return EISDIR; }
    st := RemoveTarget(k, d, n, off, dirData, i, t, tn);
  }

  /** What rmdir answers. */
  ghost function RmdirStatus(sb: Superblock, v: Vol, d: nat, name: Name): Status
  {
    if IsDots(name) then EINVAL
    else if d >= sb.inodeCount then EINVAL
    else if d !in v.inoUsed then ENOENT
    else if !IsDirAt(v, d) then ENOTDIR
    else
      var es := EntriesOf(FileAt(v, d));
      var i := IndexOf(es, name);
      if i >= |es| then ENOENT
      else if es[i].ino !in NamesOf(v).dirs then ENOTDIR
      else if !OnlyDots(NamesOf(v).dirs[es[i].ino]) then ENOTEMPTY else OK
  }

  /** kfs_vnode_rmdir: like unlink, for a directory that names nothing but
      itself and its parent. */
  method Rmdir(k: Kfs, d: nat, name: Name) returns (st: Status)
    requires k.Valid() && FsInv(k.sb, k.V())
    modifies k.disk, k.blockBitmap, k.inodeBitmap
    ensures k.Valid() && FsInv(k.sb, k.V())
    ensures st == RmdirStatus(k.sb, old(k.V()), d, name)
    ensures st != OK ==> k.V() == old(k.V())
    ensures st == OK ==>
      var ns := NamesOf(old(k.V()));
      && d in ns.dirs && IndexOf(ns.dirs[d], name) < |ns.dirs[d]|
      && NamesOf(k.V()) == Remove(ns, d, IndexOf(ns.dirs[d], name))
      && Keeps(old(k.V()), k.V(), old(k.V()).inoUsed - {ns.dirs[d][IndexOf(ns.dirs[d], name)].ino, d})
      && k.V().inoUsed == old(k.V()).inoUsed - {ns.dirs[d][IndexOf(ns.dirs[d], name)].ino as nat}
      && IsDirAt(k.V(), d) && Tight(k.V().inodes[d])
    ensures NoLeak(k.sb, old(k.V())) <==> NoLeak(k.sb, k.V())
  {
    hide Kfs.V, Kfs.Valid, Parse, EncodeAll, Content, IndexOf, Owns, WellFormed, Sound, NoLeak, FileAt, Remove, Tree;
    hide Keeps, OnlyDots;
    if name == [46] || name == [46, 46] { return EINVAL; }
    var n;
    st, n := k.ReadInode(d);
    if st != OK { return; }
    if n.typ != TYPE_DIR { return ENOTDIR; }
    ghost var v := k.V();
    DirEntries(v, d);
    FileAtOf(v, d);
    EmptyDir(Content(FileAt(v, d)));
    if n.size == 0 { return ENOENT; }
    assert Owns(k.sb, v, n) by { SoundOwns(k.sb, v, d); }
    var dirData := ReadAll(k, n);
    var found, off := FindEntry(dirData, name);
    if !found { return ENOENT; }
    ghost var i := IndexOf(Parse(dirData), name);
    EntryRead(dirData, i);
    EntryTarget(k.sb, v, d, i);
    var t: nat := RecordIno(dirData, off);
    var tn;
    st, tn := k.ReadInode(t);
    assert st == OK by { SoundOwns(k.sb, v, t); }
    if st != OK { return; }
    if tn.typ != TYPE_DIR { return ENOTDIR; }
    DirEntries(v, t);
    FileAtOf(v, t);
    EmptyDir(Content(FileAt(v, t)));
    if tn.size > 0 {
      assert Owns(k.sb, v, tn) by { SoundOwns(k.sb, v, t); }
      var subData := ReadAll(k, tn);
      var empty := IsEmptyDir(subData);
      if !empty { return ENOTEMPTY; }
    } else {
      assert OnlyDots([]) by { NoEntriesOnlyDots(); }
    }
    st := RemoveTarget(k, d, n, off, dirData, i, t, tn);
  }

  lemma NoEntriesOnlyDots()
    ensures OnlyDots([])
  {
  }
}
