/** Bytes that go in come out again: from a host file through the formatter, the mount,
    lookup and read, and from a write to a later read. */
module KfsRoundTrip {
  import opened Bits
  import opened KfsFormat
  import opened KfsDevice
  import opened KfsPages
  import opened KfsFile
  import opened KfsContent
  import opened KfsVolume
  import opened KfsDirent
  import opened KfsNames
  import opened KfsNamespace
  import opened KfsCreate
  import opened KfsRun
  import Mkfs

  /** On a formatted image the root lists file `i` under its name, as inode `i + 1`. */
  lemma RootListing(sb: Superblock, files: seq<Mkfs.HostFile>, v: Vol, i: nat)
    requires Mkfs.Built(sb, files, v) && i < |files|
    requires forall j, l :: 0 <= j < l < |files| ==> files[j].name != files[l].name
    requires !IsDots(files[i].name)
    ensures IsDirAt(v, ROOT) && LookupSpec(EntriesOf(FileAt(v, ROOT)), ROOT, files[i].name) == (OK, i + 1, false)
  {
    hide Sound, NoLeak, FileAt, Content, EncodeAll, Parse, Mkfs.HoldsAll, Mkfs.Cost, Mkfs.CostAll, IndexOf, ZeroTail;
    var es := Mkfs.RootEntries(files);
    ParseEncodeAll(es);
    FileAtOf(v, ROOT);
    assert EntriesOf(FileAt(v, ROOT)) == es;
    assert es[i] == Mkfs.RootEntry(files, i);
    forall j, l | 0 <= j < l < |es| ensures es[j].name != es[l].name {
      assert es[j] == Mkfs.RootEntry(files, j) && es[l] == Mkfs.RootEntry(files, l);
    }
    FirstMatch(es, i);
  }

  lemma FileStored(sb: Superblock, files: seq<Mkfs.HostFile>, v: Vol, i: nat)
    requires Mkfs.Built(sb, files, v) && i < |files|
    ensures i + 1 in v.inoUsed && i + 1 < |v.inodes| && Solid(FileAt(v, i + 1))
    ensures Content(FileAt(v, i + 1)) == files[i].data
  {
    hide Sound, NoLeak, FileAt, Content, EncodeAll, Solid;
    assert Mkfs.HoldsFile(v, files[i], i + 1);
  }

  lemma NamesApart(files: seq<Mkfs.HostFile>)
    requires |files| < 0x1_0000_0000 && forall j, l :: 0 <= j < l < |files| ==> files[j].name != files[l].name
    ensures UniqueNames(Mkfs.RootEntries(files))
  {
    var es := Mkfs.RootEntries(files);
    forall j, l | 0 <= j < l < |es| ensures es[j].name != es[l].name {
      assert es[j] == Mkfs.RootEntry(files, j) && es[l] == Mkfs.RootEntry(files, l);
    }
  }

  /** Format an image with files of different names that fit, mount it, look one of them
      up and read it: its bytes. */
  method FormatAndRead(sb: Superblock, files: seq<Mkfs.HostFile>, i: nat) returns (st: Status, bytes: seq<U8>)
    requires Layout(sb) && sb.inodeCount < 0x1_0000_0000 && Mkfs.Fits(sb, files) && i < |files|
    requires forall j :: 0 <= j < |files| ==> ValidName(files[j].name) && !IsDots(files[j].name)
    requires forall j, l :: 0 <= j < l < |files| ==> files[j].name != files[l].name
    ensures st == OK && bytes == files[i].data
  {
    hide Mkfs.Image.V, Kfs.V, FsInv, VolOf, Mkfs.Built, Mkfs.Fits, ValidName, Formatted, Synced, UniqueNames;
    hide LookupSpec, IndexOf, FileAt, Content, EntriesOf;
    var img := new Mkfs.Image(sb);
    var built := Mkfs.Build(img, files);
    NamesApart(files);
    ghost var v := img.V();
    RootListing(sb, files, v, i);
    FileStored(sb, files, v, i);
    assert v == VolOf(sb, img.disk[..]) by { ImageVol(img); }
    var k := new Kfs(sb, img.disk);
    assert k.V() == v by { KfsVol(k); }
    var ino, isDir;
    st, ino, isDir := Lookup(k, ROOT, files[i].name);
    st, bytes := ReadFile(k, ino, 0, |files[i].data|);
    assert files[i].data[0..|files[i].data|] == files[i].data;
  }

  /** Write to a regular file and read as much back from the same position: what was
      written, and the file holds what it held elsewhere. */
  method WriteAndRead(k: Kfs, ino: nat, offset: nat, src: seq<U8>)
    returns (st: Status, written: nat, st': Status, bytes: seq<U8>)
    requires k.Valid() && FsInv(k.sb, k.V()) && offset < OFFSET_LIMIT && src != []
    requires ino in k.V().inoUsed && ino < |k.V().inodes| && k.V().inodes[ino].typ == TYPE_FILE
    modifies k.disk, k.blockBitmap
    ensures k.Valid() && FsInv(k.sb, k.V()) && written <= |src|
    ensures st == OK ==> 0 < written && st' == OK && bytes == src[..written]
    ensures st == OK ==>
      && ino in k.V().inoUsed && FileAt(old(k.V()), ino).size <= MAX_SIZE && FileAt(k.V(), ino).size <= MAX_SIZE
      && var was, now := Content(FileAt(old(k.V()), ino)), Content(FileAt(k.V(), ino));
         forall p :: 0 <= p < |was| && !(offset <= p < offset + written) ==> p < |now| && now[p] == was[p]
  {
    hide Kfs.V, Kfs.Valid, Sound, Tree, FileAt, NoLeak, FileStep, NamesOf, NodesOk, Leaked, Keeps, FileOf, Put, Owns;
    hide Stuck, LosesIndirect, Grows, WellSized, DirFile, Content, Touched, Overwrite;
    ghost var v := k.V();
    InvSound(k.sb, v);
    ValidSizes(k);
    SoundOwns(k.sb, v, ino);
    FileAtOf(v, ino);
    FileFits(k.sb, v, ino);
    var f := new OpenFile(true, false);
    f.offset := offset;
    st, written := Write(k, f, ino, src);
    st', bytes := st, [];
    ValidSizes(k);
    if st == OK {
      FileStepUsed(k.sb, v, ino, k.V());
      FileAtOf(k.V(), ino);
      WriteKeepsInv(k.sb, v, ino, offset, src[..written], k.V());
      FileFits(k.sb, k.V(), ino);
      ReadAfterWrite(Content(FileAt(v, ino)), offset, src[..written]);
      PutMapped(FileAt(v, ino), offset, src[..written]);
      st', bytes := ReadFile(k, ino, offset, written);
    } else if LosesIndirect(k.sb, v, v.inodes[ino], offset / 512) {
      LeakedKeepsInv(k.sb, v, k.V());
    }
  }

  lemma PutMapped(f: FileState, off: nat, bytes: seq<U8>)
    requires |f.pages| == MAX_BLOCKS && bytes != []
    ensures forall p: nat :: off <= p < off + |bytes| ==> p / 512 in Put(f, off, bytes).mapped
  {
    TouchedMeans(Put(f, off, bytes).mapped, off, |bytes|);
  }

  /** What was made last in `d` is found there, and may be removed. */
  lemma JustMade(sb: Superblock, v: Vol, d: U32, name: Name, isDir: bool, ino: U32, v': Vol)
    requires FsInv(sb, v) && FsInv(sb, v') && d in NamesOf(v).dirs && ino !in v.inoUsed && !IsDots(name)
    requires IndexOf(NamesOf(v).dirs[d], name) == |NamesOf(v).dirs[d]|
    requires NamesOf(v') == Add(NamesOf(v), d, NewEntry(ino, name, isDir))
    ensures IsDirAt(v', d) && IndexOf(NamesOf(v').dirs[d], name) == |NamesOf(v).dirs[d]| < |NamesOf(v').dirs[d]|
    ensures LookupSpec(EntriesOf(FileAt(v', d)), d, name) == (OK, ino, isDir)
    ensures (if isDir then RmdirStatus(sb, v', d, name) else UnlinkStatus(sb, v', d, name)) == OK
    ensures Remove(NamesOf(v'), d, |NamesOf(v).dirs[d]|) == NamesOf(v)
  {
    hide FsInv, IndexOf, FileAt, EntriesOf, Remove;
    InvSizes(sb, v');
    InvDirs(sb, v);
    var ns, e := NamesOf(v), NewEntry(ino, name, isDir);
    AddedEntries(ns, d, e);
    RemoveUndoesAdd(ns, d, e);
    IndexOfMore(ns.dirs[d], e, name);
    hide Add;
    assert NamesOf(v').dirs[d] == EntriesOf(FileAt(v', d));
  }

  lemma InvSizes(sb: Superblock, v: Vol)
    requires FsInv(sb, v)
    ensures forall i :: i in v.inoUsed ==> i < sb.inodeCount
  {
  }

  lemma InvDirs(sb: Superblock, v: Vol)
    requires FsInv(sb, v)
    ensures NamesOf(v).used == v.inoUsed && NamesOf(v).dirs.Keys <= v.inoUsed
  {
  }

  /** Create a file or a directory under a new name, look it up and remove it: it is
      found as what it was made, and the namespace is what it was before. */
  method CreateAndRemove(k: Kfs, d: nat, name: Name, isDir: bool)
    returns (st: Status, ino: nat, looked: (Status, nat, bool), removed: Status)
    requires k.Valid() && FsInv(k.sb, k.V()) && NoNul(name) && k.sb.inodeCount <= 0x1_0000_0000
    requires MakesNew(k.sb, k.V(), d, name) && !ShortCreate(k.sb, k.V(), d, name, isDir)
    modifies k.disk, k.blockBitmap, k.inodeBitmap
    ensures k.Valid() && FsInv(k.sb, k.V()) && NamesOf(k.V()) == NamesOf(old(k.V()))
    ensures st == OK ==> looked == (OK, ino, isDir) && removed == OK && ino !in old(k.V()).inoUsed
  {
    hide Kfs.V, Kfs.Valid, FsInv, IndexOf, FileAt, EntriesOf, NamesOf, Remove, Add, NoLeak, Keeps, Sound, LosesBlock;
    hide ShortCreate, UnlinkStatus, RmdirStatus, CreateStatus, LookupSpec;
    ghost var v := k.V();
    NewName(k.sb, v, d, name);
    var written;
    st, ino, written := Create(k, d, name, isDir);
    looked, removed := (st, 0, false), st;
    if st != OK { return; }
    JustMade(k.sb, v, d, name, isDir, ino, k.V());
    var ls, li, ld := Lookup(k, d, name);
    looked := (ls, li, ld);
    if isDir {
      removed := Rmdir(k, d, name);
    } else {
      removed := Unlink(k, d, name);
    }
  }

  lemma NewName(sb: Superblock, v: Vol, d: nat, name: Name)
    requires FsInv(sb, v) && MakesNew(sb, v, d, name)
    ensures d in NamesOf(v).dirs && !IsDots(name) && IndexOf(NamesOf(v).dirs[d], name) == |NamesOf(v).dirs[d]|
  {
    hide IndexOf, FileAt, EntriesOf, Sound, Tree, NodesOk;
  }
}
