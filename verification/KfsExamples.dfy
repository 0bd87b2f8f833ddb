/** Runs from mkfs on that show each way in which the file system fails to keep what
    it promises: the inputs are the smallest that reach the failing branch. */
module KfsExamples {
  import opened Bits
  import opened KfsFormat
  import opened KfsPages
  import opened KfsFile
  import opened KfsContent
  import opened KfsVolume
  import opened KfsDirent
  import opened KfsNames
  import opened KfsNamespace
  import opened KfsCreate
  import opened Kfsck
  import opened KfsRun
  import Mkfs

  /** A volume with eight inodes and `data` data blocks. */
  function Tiny(data: nat): Superblock
  {
    Superblock(68 + data, 8, 65, 1, 66, 1, 67, 1, 68, 0)
  }

  function Repeat(b: U8, n: nat): (s: seq<U8>)
    ensures |s| == n && forall i :: 0 <= i < n ==> s[i] == b
  {
    seq(n, _ => b)
  }

  /** One file with the name `a`. */
  function OneFile(data: seq<U8>): seq<Mkfs.HostFile>
  {
    [Mkfs.HostFile([97], data)]
  }

  /** Two empty files whose records fill 508 bytes of the root's block. */
  function LongNames(): seq<Mkfs.HostFile>
  {
    [Mkfs.HostFile(Repeat(97, 255), []), Mkfs.HostFile(Repeat(98, 233), [])]
  }

  lemma OneFileCost(data: seq<U8>)
    ensures Mkfs.CostAll(OneFile(data)) == Mkfs.Cost(|data|) && Mkfs.RootSize(OneFile(data)) == 12
    ensures UniqueNames(Mkfs.RootEntries(OneFile(data)))
  {
    assert OneFile(data)[..0] == [];
  }

  lemma LongNamesCost()
    ensures Mkfs.CostAll(LongNames()) == 0 && Mkfs.RootSize(LongNames()) == 508
    ensures UniqueNames(Mkfs.RootEntries(LongNames()))
  {
    var files := LongNames();
    assert files[..1] == [files[0]] && files[..1][..0] == [];
    assert files[0].name != files[1].name;
  }

  /** The root of an image as mkfs left it. */
  lemma RootAt(sb: Superblock, files: seq<Mkfs.HostFile>, v: Vol)
    requires Mkfs.Built(sb, files, v)
    ensures IsDirAt(v, ROOT) && DirFile(FileAt(v, ROOT)) && v.inodes[ROOT].size == Mkfs.RootSize(files)
    ensures EntriesOf(FileAt(v, ROOT)) == Mkfs.RootEntries(files)
    ensures |Content(FileAt(v, ROOT))| == Mkfs.RootSize(files)
  {
    hide Sound, NoLeak, Content, EncodeAll, Parse, Pages, Mapped;
    ParseEncodeAll(Mkfs.RootEntries(files));
  }

  // --------------------------------------------------- the entry cut short

  /** The root ends four bytes before its block does, and there is no other block. */
  lemma RootFull(v: Vol)
    requires Mkfs.Built(Tiny(1), LongNames(), v)
    ensures ShortCreate(Tiny(1), v, ROOT, [120], false)
  {
    hide Sound, NoLeak, Solid, Content, EncodeAll, Parse, Pages, Mapped, Mkfs.Built, DirFile, Need;
    RootAt(Tiny(1), LongNames(), v);
    LongNamesCost();
    FullFacts(v);
    var es := Mkfs.RootEntries(LongNames());
    assert forall i :: 0 <= i < |es| ==> es[i].name != [120] by {
      assert |es[0].name| == 255 && |es[1].name| == 233;
    }
    assert IndexOf(es, [120]) == |es|;
  }

  lemma FullFacts(v: Vol)
    requires Mkfs.Built(Tiny(1), LongNames(), v)
    ensures |Free(Tiny(1), v)| == 0 && 3 !in v.inoUsed && Need(v.inodes[ROOT], v.data, 1) >= 1
  {
    hide NoLeak, Content, EncodeAll, Ptr, Pages, Free;
    LongNamesCost();
    var n := v.inodes[ROOT];
    assert n.size == 508;
    assert Mapped(n, v.data) == Below(1);
    assert 1 !in Below(1);
  }

  /** Creating a file when the root's record does not fit breaks the invariant. */
  method CutShortRun() returns (broken: bool)
    ensures broken
  {
    hide Mkfs.Built, FsInv, NoLeak, Clean, Passes, Did, UniqueNames, Mkfs.RootEntries, ShortCreate, Mkfs.CostAll;
    hide Mkfs.RootSize;
    var files := LongNames();
    LongNamesCost();
    var built, pass, done;
    ghost var trace;
    built, broken, pass, done, trace := Lifecycle(Tiny(1), files, [CreateOp(ROOT, [120], false)]);
    RootFull(trace[0]);
  }

  // ------------------------------------------------ the lost indirect block

  /** A file of ten blocks, and one free block. */
  lemma TenBlocks(v: Vol)
    requires Mkfs.Built(Tiny(12), OneFile(Repeat(0, 5120)), v)
    ensures Loses(Tiny(12), v, WriteOp(1, 5120, false, [7])) && v.inodes[1].typ == TYPE_FILE
  {
    hide NoLeak, Content, EncodeAll, Pages, Free, WordsOf, Blocks, Distinct;
    OneFileCost(Repeat(0, 5120));
    assert Mkfs.HoldsFile(v, OneFile(Repeat(0, 5120))[0], 1);
    var n := v.inodes[1];
    assert n.indirect == 0 && 0 !in v.data;
    assert !IsMapped(n, v.data, 10);
  }

  /** Writing the eleventh block of a file loses the last free block, and the checker
      says so. */
  method LostBlockRun() returns (pass: bool)
    ensures !pass
  {
    hide Mkfs.Built, FsInv, NoLeak, Passes, Did, UniqueNames, Mkfs.RootEntries, Loses, Mkfs.CostAll, Mkfs.RootSize;
    var files := OneFile(Repeat(0, 5120));
    OneFileCost(Repeat(0, 5120));
    var built, broken, done;
    ghost var trace;
    built, broken, pass, done, trace := Lifecycle(Tiny(12), files, [WriteOp(1, 5120, false, [7])]);
    TenBlocks(trace[0]);
  }

  // ---------------------------------------------------------------- the hole

  /** A byte written one block past the end of an empty file leaves a hole. */
  lemma HoleLeft(v: Vol, v': Vol)
    requires Mkfs.Built(KryosLayout, OneFile([]), v) && Did(KryosLayout, v, WriteOp(1, 512, false, [7]), v')
    ensures !Clean(KryosLayout, v') && v.inodes[1].typ == TYPE_FILE
  {
    hide NoLeak, Content, EncodeAll, Pages, Free, WordsOf, Blocks, Distinct, Put, Keeps, NamesOf;
    OneFileCost([]);
    assert Mkfs.HoldsFile(v, OneFile([])[0], 1);
    var n := v.inodes[1];
    assert !Stuck(KryosLayout, v, n, 512);
    var k: nat :| Stored(KryosLayout, v, 1, 512, [7], k, v');
    assert k == 1 && [7][..1] == [7];
    PutSolid(FileAt(v, 1), 512, [7]);
    assert !Neat(v', 1);
  }

  method HoleRun() returns (pass: bool)
    ensures !pass
  {
    hide Mkfs.Built, FsInv, NoLeak, Clean, Passes, Did, UniqueNames, Mkfs.RootEntries, Mkfs.CostAll, Mkfs.RootSize;
    KryosFits();
    OneFileCost([]);
    var built, broken, done;
    ghost var trace;
    built, broken, pass, done, trace := Lifecycle(KryosLayout, OneFile([]), [WriteOp(1, 512, false, [7])]);
    HoleLeft(trace[0], trace[1]);
  }

  // ------------------------------------------ directories taken for files

  lemma RootNotEmpty(v: Vol)
    requires Mkfs.Built(KryosLayout, OneFile([]), v)
    ensures 0 < |v.inodes| && ROOT in v.inoUsed && BreaksEmptied(v, ROOT)
  {
    hide Mkfs.Built;
    RootAt(KryosLayout, OneFile([]), v);
  }

  /** Truncating the root orphans what it names. */
  method EmptiedRun() returns (broken: bool)
    ensures broken
  {
    hide Mkfs.Built, FsInv, NoLeak, Clean, Passes, Did, UniqueNames, Mkfs.RootEntries, Mkfs.CostAll, Mkfs.RootSize;
    KryosFits();
    OneFileCost([]);
    var built, pass, done;
    ghost var trace;
    built, broken, pass, done, trace := Lifecycle(KryosLayout, OneFile([]), [TruncateOp(ROOT)]);
    RootNotEmpty(trace[0]);
  }

  /** One byte behind the only record is no directory. */
  lemma Scribbled(v: Vol, v': Vol)
    requires Mkfs.Built(KryosLayout, OneFile([]), v) && Did(KryosLayout, v, WriteOp(ROOT, 12, false, [7]), v')
    ensures BreaksWrite(KryosLayout, v, ROOT, 12, false, [7], v')
  {
    hide Sound, NoLeak, Content, EncodeAll, Parse, Pages, Free, WordsOf, Blocks, Put, Keeps, NamesOf, Relists;
    OneFileCost([]);
    RootAt(KryosLayout, OneFile([]), v);
    var n := v.inodes[ROOT];
    assert 0 in Below(BlocksFor(12));
    assert !Stuck(KryosLayout, v, n, 12);
    var k: nat :| Stored(KryosLayout, v, ROOT, 12, [7], k, v');
    assert k == 1 && [7][..1] == [7];
    var was := Content(FileAt(v, ROOT));
    var now := Overwrite(was, 12, [7]);
    assert |now| == 13;
    assert Unlists(KryosLayout, v, ROOT, 12, [7], 1, v');
  }

  method ScribbledRun() returns (broken: bool)
    ensures broken
  {
    hide Mkfs.Built, FsInv, NoLeak, Clean, Passes, Did, UniqueNames, Mkfs.RootEntries, Mkfs.CostAll, Mkfs.RootSize;
    hide BreaksWrite;
    KryosFits();
    OneFileCost([]);
    var built, pass, done;
    ghost var trace;
    built, broken, pass, done, trace := Lifecycle(KryosLayout, OneFile([]), [WriteOp(ROOT, 12, false, [7])]);
    if !broken {
      assert Did(KryosLayout, trace[0], WriteOp(ROOT, 12, false, [7]), trace[1]);
      Scribbled(trace[0], trace[1]);
    }
  }
}
