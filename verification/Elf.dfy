/** kernel/process/elf.c: loading the segments of an ELF image into a new address
    space, and the initial stack. */
module Elf {
  import opened Bits
  import opened UserMemory
  import opened ElfStack

  const WORD: nat := 0x1_0000_0000_0000_0000
  const USER_END: nat := 0x7FFF_FFFF_FFFF
  const ELF_MAGIC: nat := 0x464C_457F

  datatype Status =
    | Success | MalformedHeader | BadMagic | UnsupportedClass | WrongMachine | MalformedPhdr
    | FileszGtMemsz | SegmentOutOfBounds | VaddrOverflow | SegmentNotUser | RwxRejected
    | VmmError | EntryOutOfBounds | StackError

  // ------------------------------------------------------------ file formats

  function Field(data: seq<U8>, at: nat, size: nat): nat
    requires at + size <= |data|
  {
    UnLE(data[at..at + size])
  }

  datatype Ehdr = Ehdr(magic: nat, cls: nat, machine: nat, entry: nat, phoff: nat, phentsize: nat, phnum: nat)

  function ReadEhdr(data: seq<U8>): Ehdr
    requires 64 <= |data|
  {
    Ehdr(Field(data, 0, 4), Field(data, 4, 1), Field(data, 18, 2), Field(data, 24, 8), Field(data, 32, 8),
         Field(data, 54, 2), Field(data, 56, 2))
  }

  datatype Phdr = Phdr(load: bool, write: bool, exec: bool, offset: nat, vaddr: nat, filesz: nat, memsz: nat)

  function ReadPhdr(data: seq<U8>, at: nat): Phdr
    requires at + 56 <= |data|
  {
    var flags := Field(data, at + 4, 4);
    Phdr(Field(data, at, 4) == 1, flags / 2 % 2 == 1, flags % 2 == 1,
         Field(data, at + 8, 8), Field(data, at + 16, 8), Field(data, at + 32, 8), Field(data, at + 40, 8))
  }

  /** check_elf_header */
  function CheckHeader(data: seq<U8>): Status
  {
    if |data| < 64 then MalformedHeader
    else
      var h := ReadEhdr(data);
      if h.magic != ELF_MAGIC then BadMagic
      else if h.cls != 2 then UnsupportedClass
      else if h.machine != 62 then WrongMachine
      else
        var phEnd := (h.phoff + h.phnum * h.phentsize) % WORD;
        if phEnd < h.phoff || phEnd > |data| then MalformedPhdr else Success
  }

  /** The program headers lie inside the file: the last one does, so all do. */
  predicate Readable(data: seq<U8>)
  {
    64 <= |data| && var h := ReadEhdr(data); h.phnum > 0 ==> EntryInside(h, h.phnum - 1, |data|)
  }

  /** A header that passes the check has its table inside the file; each entry is
      inside too exactly when entries are not shorter than a program header, or
      there is room for the last one all the same. */
  lemma HeaderBounds(data: seq<U8>)
    requires CheckHeader(data) == Success && |data| < WORD
    ensures var h := ReadEhdr(data); h.phoff + h.phnum * h.phentsize <= |data|
    ensures var h := ReadEhdr(data);
            (forall i: nat :: i < h.phnum ==> EntryInside(h, i, |data|)) <==>
                h.phnum == 0 || EntryInside(h, h.phnum - 1, |data|)
  {
    var h := ReadEhdr(data);
    FieldBound(data, 32, 8);
    FieldBound(data, 54, 2);
    FieldBound(data, 56, 2);
    Small(h.phnum, h.phentsize);
    assert h.phoff < WORD;
    if h.phnum > 0 && EntryInside(h, h.phnum - 1, |data|) {
      forall i: nat | i < h.phnum ensures EntryInside(h, i, |data|) { Mono(i, h.phnum - 1, h.phentsize); }
    }
  }

  /** The check, in bytes of the file: 0x7F and "ELF", 64-bit, AMD64, and a program
      header table that ends inside the file. */
  lemma HeaderMeans(data: seq<U8>)
    requires |data| < WORD
    ensures CheckHeader(data) ==
              if |data| < 64 then MalformedHeader
              else if data[..4] != [0x7F, 0x45, 0x4C, 0x46] then BadMagic
              else if data[4] != 2 then UnsupportedClass
              else if data[18] != 62 || data[19] != 0 then WrongMachine
              else if UnLE(data[32..40]) + UnLE(data[56..58]) * UnLE(data[54..56]) > |data| then MalformedPhdr
              else Success
  {
    if |data| >= 64 {
      var h := ReadEhdr(data);
      Bytes1(data, 4);
      Bytes2(data, 18);
      Bytes4(data, 0);
      FieldBound(data, 32, 8);
      FieldBound(data, 54, 2);
      FieldBound(data, 56, 2);
      Small(h.phnum, h.phentsize);
      hide UnLE;
      assert data[0..4] == data[..4] == [data[0], data[1], data[2], data[3]];
      MagicBytes(data[0], data[1], data[2], data[3]);
      TableEnd(h.phoff, h.phnum * h.phentsize, |data|);
    }
  }

  lemma Bytes1(data: seq<U8>, at: nat)
    requires at + 1 <= |data|
    ensures Field(data, at, 1) == data[at]
  {
    var s := data[at..at + 1];
    assert s[1..] == [] && UnLE(s[1..]) == 0;
  }

  lemma Bytes2(data: seq<U8>, at: nat)
    requires at + 2 <= |data|
    ensures Field(data, at, 2) == data[at] as int + 256 * (data[at + 1] as int)
  {
    var s := data[at..at + 2];
    assert s[1..] == data[at + 1..at + 2];
    Bytes1(data, at + 1);
  }

  function Word(a: U8, b: U8, c: U8, d: U8): int
  {
    a as int + 256 * (b as int + 256 * (c as int + 256 * (d as int)))
  }

  lemma Bytes4(data: seq<U8>, at: nat)
    requires at + 4 <= |data|
    ensures Field(data, at, 4) == Word(data[at], data[at + 1], data[at + 2], data[at + 3])
  {
    var s := data[at..at + 4];
    assert s[1..] == data[at + 1..at + 4] && s[1..][1..] == data[at + 2..at + 4];
    assert UnLE(s) == s[0] + 256 * UnLE(s[1..]) && UnLE(s[1..]) == s[1] + 256 * UnLE(s[1..][1..]);
    Bytes2(data, at + 2);
  }

  lemma MagicBytes(a: U8, b: U8, c: U8, d: U8)
    ensures Word(a, b, c, d) == ELF_MAGIC <==> a == 0x7F && b == 0x45 && c == 0x4C && d == 0x46
  {
  }

  lemma LowBits(a: U8, b: U8, c: U8, d: U8)
    ensures Word(a, b, c, d) == 1 <==> a == 1 && b == 0 && c == 0 && d == 0
    ensures Word(a, b, c, d) % 2 == a % 2 && Word(a, b, c, d) / 2 % 2 == a / 2 % 2
  {
    var high := b as int + 256 * (c as int + 256 * (d as int));
    assert Word(a, b, c, d) == a as int + 256 * high;
    hide Word;
    assert (a as int + 256 * high) / 2 == a as int / 2 + 128 * high;
  }

  lemma TableEnd(off: nat, len: nat, size: nat)
    requires off < WORD && len < 0x1_0000_0000 && size < WORD
    ensures var end := (off + len) % WORD; end < off || end > size <==> off + len > size
  {
  }

  /** A program header, in bytes of the file. */
  lemma PhdrMeans(data: seq<U8>, at: nat)
    requires at + 56 <= |data|
    ensures var ph := ReadPhdr(data, at);
            && (ph.load <==> data[at] == 1 && data[at + 1] == 0 && data[at + 2] == 0 && data[at + 3] == 0)
            && (ph.exec <==> data[at + 4] % 2 == 1) && (ph.write <==> data[at + 4] / 2 % 2 == 1)
            && ph.offset == UnLE(data[at + 8..at + 16]) && ph.vaddr == UnLE(data[at + 16..at + 24])
            && ph.filesz == UnLE(data[at + 32..at + 40]) && ph.memsz == UnLE(data[at + 40..at + 48])
  {
    Bytes4(data, at);
    Bytes4(data, at + 4);
    LowBits(data[at], data[at + 1], data[at + 2], data[at + 3]);
    LowBits(data[at + 4], data[at + 5], data[at + 6], data[at + 7]);
    hide UnLE, Word;
  }

  predicate EntryInside(h: Ehdr, i: nat, size: nat)
  {
    h.phoff + i * h.phentsize + 56 <= size
  }

  lemma Small(a: nat, b: nat)
    requires a < 65536 && b < 65536
    ensures a * b < 0x1_0000_0000
  {
    Mono(a, 65535, b);
  }

  lemma Mono(i: nat, j: nat, b: nat)
    requires i <= j
    ensures i * b <= j * b
  {
  }

  lemma {:induction false} UnLEBound(s: seq<U8>)
    ensures UnLE(s) < Pow256(|s|)
    decreases |s|
  {
    if s == [] {
    } else {
      UnLEBound(s[1..]);
    }
  }

  lemma FieldBound(data: seq<U8>, at: nat, size: nat)
    requires at + size <= |data| && size <= 8
    ensures size == 8 ==> Field(data, at, size) < WORD
    ensures size == 2 ==> Field(data, at, size) < 65536
  {
    UnLEBound(data[at..at + size]);
    Pow8();
    assert Pow256(2) == 65536;
  }

  // --------------------------------------------------------------- segments

  /** The checks on one PT_LOAD header, in the order of the source. */
  function CheckSegment(ph: Phdr, size: nat): Status
  {
    var fileEnd, memEnd := (ph.offset + ph.filesz) % WORD, (ph.vaddr + ph.memsz) % WORD;
    if ph.filesz > ph.memsz then FileszGtMemsz
    else if fileEnd < ph.offset || fileEnd > size then SegmentOutOfBounds
    else if memEnd < ph.vaddr then VaddrOverflow
    else if memEnd > USER_END then SegmentNotUser
    else if ph.write && ph.exec then RwxRejected
    else Success
  }

  predicate Words64(ph: Phdr)
  {
    ph.offset < WORD && ph.vaddr < WORD && ph.filesz < WORD && ph.memsz < WORD
  }

  /** What the checks mean, without wrap-around. */
  predicate Sound(ph: Phdr, size: nat)
  {
    && ph.filesz <= ph.memsz && ph.offset + ph.filesz <= size && ph.vaddr + ph.memsz <= USER_END
    && !(ph.write && ph.exec)
  }

  /** The checks, which wrap, give the errors that checks without wrapping would. */
  lemma CheckMeans(ph: Phdr, size: nat)
    requires Words64(ph) && size < WORD
    ensures CheckSegment(ph, size) ==
              if ph.memsz < ph.filesz then FileszGtMemsz
              else if size < ph.offset + ph.filesz then SegmentOutOfBounds
              else if WORD <= ph.vaddr + ph.memsz then VaddrOverflow
              else if 0x7FFF_FFFF_FFFF < ph.vaddr + ph.memsz then SegmentNotUser
              else if ph.write && ph.exec then RwxRejected
              else Success
  {
  }

  lemma CheckedSound(ph: Phdr, size: nat)
    requires Words64(ph) && size < WORD
    ensures CheckSegment(ph, size) == Success <==> Sound(ph, size)
  {
  }

  predicate InFile(ph: Phdr, va: nat)
  {
    ph.load && ph.vaddr <= va < ph.vaddr + ph.filesz
  }

  predicate InMemory(ph: Phdr, va: nat)
  {
    ph.load && ph.vaddr <= va < ph.vaddr + ph.memsz
  }

  predicate AllSound(phs: seq<Phdr>, size: nat)
  {
    forall i :: 0 <= i < |phs| && phs[i].load ==> Sound(phs[i], size)
  }

  /** The byte that the segments put at `va`: the last one with a file byte there
      wins, and zero where none has. */
  function Overlay(data: seq<U8>, phs: seq<Phdr>, va: nat): U8
    requires AllSound(phs, |data|)
  {
    if phs == [] then 0
    else
      var ph := phs[|phs| - 1];
      if InFile(ph, va) then data[ph.offset + (va - ph.vaddr)] else Overlay(data, phs[..|phs| - 1], va)
  }

  ghost predicate Loaded(pages: Pages, data: seq<U8>, phs: seq<Phdr>)
    requires AllSound(phs, |data|)
  {
    forall va: nat :: ByteAt(pages, va) >= 0 ==> ByteAt(pages, va) == Overlay(data, phs, va)
  }

  ghost predicate Covered(pages: Pages, phs: seq<Phdr>)
  {
    forall i, va: nat :: 0 <= i < |phs| && InMemory(phs[i], va) ==> ByteAt(pages, va) >= 0
  }

  predicate Disjoint(phs: seq<Phdr>)
  {
    forall i, j :: 0 <= i < j < |phs| && phs[i].load && phs[j].load ==>
      phs[i].vaddr + phs[i].memsz <= phs[j].vaddr || phs[j].vaddr + phs[j].memsz <= phs[i].vaddr
  }

  /** Where no two segments overlap, every byte of a segment is its file byte below
      filesz and zero from there to memsz. */
  lemma {:induction false} SegmentBytes(data: seq<U8>, phs: seq<Phdr>, i: nat, va: nat)
    requires AllSound(phs, |data|) && Disjoint(phs) && i < |phs| && InMemory(phs[i], va)
    ensures Overlay(data, phs, va) ==
              if va < phs[i].vaddr + phs[i].filesz then data[phs[i].offset + (va - phs[i].vaddr)] else 0
    decreases |phs|
  {
    var n := |phs| - 1;
    if i < n {
      assert !InFile(phs[n], va);
      SegmentBytes(data, phs[..n], i, va);
    } else if !InFile(phs[n], va) {
      NoSegment(data, phs[..n], va);
    }
  }

  lemma {:induction false} NoSegment(data: seq<U8>, phs: seq<Phdr>, va: nat)
    requires AllSound(phs, |data|) && forall i :: 0 <= i < |phs| ==> !InFile(phs[i], va)
    ensures Overlay(data, phs, va) == 0
    decreases |phs|
  {
    if phs == [] {
    } else {
      NoSegment(data, phs[..|phs| - 1], va);
    }
  }

  /** Where segments overlap, the last one that has a file byte there wins. */
  lemma {:induction false} LastSegmentWins(data: seq<U8>, phs: seq<Phdr>, i: nat, va: nat)
    requires AllSound(phs, |data|) && i < |phs| && InFile(phs[i], va)
    requires forall j :: i < j < |phs| ==> !InFile(phs[j], va)
    ensures Overlay(data, phs, va) == data[phs[i].offset + (va - phs[i].vaddr)]
    decreases |phs|
  {
    if i == |phs| - 1 {
    } else {
      LastSegmentWins(data, phs[..|phs| - 1], i, va);
    }
  }

  // ------------------------------------------------------------- one segment

  /** Page `page` after the file bytes of `ph` that fall into it were copied. */
  function Patched(base: Page, data: seq<U8>, ph: Phdr, page: nat): (r: Page)
    requires ph.load && ph.offset + ph.filesz <= |data|
  {
    seq(4096, o requires 0 <= o < 4096 => PatchByte(base[o], data, ph, page * PAGE + o))
  }

  function PatchByte(b: U8, data: seq<U8>, ph: Phdr, va: nat): U8
    requires ph.load && ph.offset + ph.filesz <= |data|
  {
    if InFile(ph, va) then data[ph.offset + (va - ph.vaddr)] else b
  }

  function Base(pages: Pages, page: nat): Page
  {
    if page in pages then pages[page] else ZeroPage()
  }

  /** One turn of the page loop: map the page if need be, then copy. */
  method LoadPage(m: Space, data: seq<U8>, ph: Phdr, page: nat) returns (ok: bool)
    requires m.Valid() && ph.load && Sound(ph, |data|) && ph.vaddr / PAGE <= page
    modifies m
    ensures m.Valid() && (ok ==> m.pages == old(m.pages)[page := Patched(Base(old(m.pages), page), data, ph, page)])
    ensures ok ==>
              m.perms == if page in old(m.pages) then old(m.perms) else old(m.perms)[page := Perm(ph.write, ph.exec)]
    ensures ok <==> page in old(m.pages) || old(m.supply) > 0
    ensures ok ==> m.supply == if page in old(m.pages) then old(m.supply) else old(m.supply) - 1
    ensures !ok ==> m.pages == old(m.pages) && m.supply == old(m.supply)
  {
    ghost var base := Base(m.pages, page);
    if page !in m.pages {
      ok := m.MapZeroed(page, Perm(ph.write, ph.exec));
      if !ok { return false; }
    }
    var start := page * PAGE;
    var pageOffset := if start < ph.vaddr then ph.vaddr - start else 0;
    var copyStart := start + pageOffset;
    ghost var done := m.pages[page];
    if copyStart < ph.vaddr + ph.filesz {
      var fileOffset := ph.offset + (copyStart - ph.vaddr);
      var copySize := PAGE - pageOffset;
      var remaining := ph.vaddr + ph.filesz - copyStart;
      if copySize > remaining { copySize := remaining; }
      CopyIn(m.pages[page], data, ph, page, pageOffset, fileOffset, copySize);
      var bytes := m.pages[page][..pageOffset] + data[fileOffset..fileOffset + copySize]
                   + m.pages[page][pageOffset + copySize..];
      m.pages := m.pages[page := bytes];
    } else {
      NothingToCopy(m.pages[page], data, ph, page);
      assert m.pages[page := m.pages[page]] == m.pages;
    }
    assert m.pages.Keys == old(m.pages).Keys + {page};
    return true;
  }

  lemma CopyIn(base: Page, data: seq<U8>, ph: Phdr, page: nat, off: nat, fileOffset: nat, n: nat)
    requires ph.load && ph.offset + ph.filesz <= |data| && ph.vaddr / PAGE <= page
    requires var start := page * PAGE;
             && off == (if start < ph.vaddr then ph.vaddr - start else 0) && start + off < ph.vaddr + ph.filesz
             && fileOffset == ph.offset + (start + off - ph.vaddr)
             && var left := ph.vaddr + ph.filesz - (start + off);
                n == if PAGE - off > left then left else PAGE - off
    ensures off + n <= 4096 && fileOffset + n <= |data|
    ensures base[..off] + data[fileOffset..fileOffset + n] + base[off + n..] == Patched(base, data, ph, page)
  {
    var r := base[..off] + data[fileOffset..fileOffset + n] + base[off + n..];
    var q := Patched(base, data, ph, page);
    forall o | 0 <= o < 4096 ensures r[o] == q[o] {
      var va := page * PAGE + o;
      if o < off { assert r[o] == base[o] && !InFile(ph, va); }
      else if o < off + n { assert r[o] == data[fileOffset + (o - off)] && InFile(ph, va); }
      else { assert r[o] == base[o] && !InFile(ph, va); }
    }
    assert r == q;
  }

  lemma NothingToCopy(base: Page, data: seq<U8>, ph: Phdr, page: nat)
    requires ph.load && ph.offset + ph.filesz <= |data| && ph.vaddr / PAGE <= page
    requires var start := page * PAGE;
             start + (if start < ph.vaddr then ph.vaddr - start else 0) >= ph.vaddr + ph.filesz
    ensures Patched(base, data, ph, page) == base
  {
    var q := Patched(base, data, ph, page);
    forall o | 0 <= o < 4096 ensures q[o] == base[o] { assert !InFile(ph, page * PAGE + o); }
  }

  predicate Touches(ph: Phdr, page: nat)
  {
    ph.load && ph.vaddr / PAGE <= page < (ph.vaddr + ph.memsz + 0xFFF) / PAGE
  }

  /** A segment needs the pages it reaches into. */
  lemma TouchesMeans(ph: Phdr, page: nat)
    ensures Touches(ph, page) <==>
              ph.load && ph.vaddr < (page + 1) * 4096 && page * 4096 < ph.vaddr + ph.memsz
  {
  }

  /** The pages that a segment needs, and those that all of them need. */
  ghost function PagesOf(ph: Phdr): set<nat>
  {
    set p: nat | p < (ph.vaddr + ph.memsz + 0xFFF) / PAGE && Touches(ph, p)
  }

  ghost function AllPages(phs: seq<Phdr>): set<nat>
  {
    if phs == [] then {} else AllPages(phs[..|phs| - 1]) + PagesOf(phs[|phs| - 1])
  }

  lemma AllPagesLast(phs: seq<Phdr>, ph: Phdr)
    ensures AllPages(phs + [ph]) == AllPages(phs) + PagesOf(ph)
    ensures !ph.load ==> PagesOf(ph) == {}
  {
    assert (phs + [ph])[..|phs|] == phs;
  }

  lemma {:induction false} AllPagesMean(phs: seq<Phdr>, page: nat)
    ensures page in AllPages(phs) <==> exists i :: 0 <= i < |phs| && Touches(phs[i], page)
    decreases |phs|
  {
    if phs == [] {
    } else {
      AllPagesMean(phs[..|phs| - 1], page);
    }
  }

  lemma {:induction false} AllPagesMono(phs: seq<Phdr>, i: nat)
    requires i <= |phs|
    ensures AllPages(phs[..i]) <= AllPages(phs)
    decreases |phs| - i
  {
    if i < |phs| {
      assert phs[..i + 1] == phs[..i] + [phs[i]];
      AllPagesLast(phs[..i], phs[i]);
      AllPagesMono(phs, i + 1);
    } else {
      assert phs[..i] == phs;
    }
  }

  lemma SizeMono(a: set<nat>, b: set<nat>)
    requires a <= b
    ensures |a| <= |b|
  {
    assert b == a + (b - a);
  }

  /** Pages and frames add up to `budget`. */
  ghost predicate Spent(m: Space, budget: nat)
    reads m
  {
    |m.pages.Keys| + m.supply == budget
  }

  lemma OneMore(s: set<nat>, p: nat)
    requires p !in s
    ensures |s + {p}| == |s| + 1
  {
  }

  /** The first segment that touches a page decides its permissions. */
  ghost predicate Granted(perms: map<nat, Perm>, phs: seq<Phdr>)
  {
    forall p :: p in perms ==> exists i :: 0 <= i < |phs| && GrantedBy(perms[p], phs, p, i)
  }

  ghost predicate GrantedBy(perm: Perm, phs: seq<Phdr>, page: nat, i: nat)
    requires i < |phs|
  {
    && Touches(phs[i], page) && perm == Perm(phs[i].write, phs[i].exec)
    && forall j :: 0 <= j < i ==> !Touches(phs[j], page)
  }

  /** Pages that `ph` adds carry its permissions, and those before it keep theirs. */
  ghost predicate Adds(perms: map<nat, Perm>, perms': map<nat, Perm>, ph: Phdr)
  {
    && (forall p :: p in perms ==> p in perms' && perms'[p] == perms[p])
    && (forall p :: p in perms' && p !in perms ==> Touches(ph, p) && perms'[p] == Perm(ph.write, ph.exec))
  }

  lemma AddsNone(perms: map<nat, Perm>, ph: Phdr)
    ensures Adds(perms, perms, ph)
  {
  }

  lemma AddsMore(perms0: map<nat, Perm>, perms: map<nat, Perm>, ph: Phdr, page: nat)
    requires Adds(perms0, perms, ph) && Touches(ph, page)
    ensures Adds(perms0, if page in perms then perms else perms[page := Perm(ph.write, ph.exec)], ph)
  {
  }

  lemma GrantedMore(perms: map<nat, Perm>, perms': map<nat, Perm>, phs: seq<Phdr>, ph: Phdr)
    requires Granted(perms, phs) && Adds(perms, perms', ph) && perms.Keys == AllPages(phs)
    ensures Granted(perms', phs + [ph])
  {
    hide AllPages;
    var all := phs + [ph];
    forall p | p in perms' ensures exists i :: 0 <= i < |all| && GrantedBy(perms'[p], all, p, i) {
      if p in perms {
        var i :| 0 <= i < |phs| && GrantedBy(perms[p], phs, p, i);
        assert GrantedBy(perms'[p], all, p, i);
      } else {
        forall j | 0 <= j < |phs| ensures !Touches(phs[j], p) {
          assert p !in perms.Keys;
          TouchedIn(phs, j, p);
        }
        assert GrantedBy(perms'[p], all, p, |phs|);
      }
    }
  }

  lemma {:induction false} TouchedIn(phs: seq<Phdr>, i: nat, p: nat)
    requires i < |phs|
    ensures Touches(phs[i], p) ==> p in AllPages(phs)
    decreases |phs|
  {
    if i == |phs| - 1 {
    } else {
      TouchedIn(phs[..|phs| - 1], i, p);
    }
  }

  /** Segment `ph` on top of `phs` is done for all pages below `page`. */
  ghost predicate Partly(pages: Pages, data: seq<U8>, phs: seq<Phdr>, ph: Phdr, page: nat)
    requires AllSound(phs, |data|) && AllSound(phs + [ph], |data|)
  {
    forall va: nat :: ByteAt(pages, va) >= 0 ==>
      ByteAt(pages, va) == if va / PAGE < page then Overlay(data, phs + [ph], va) else Overlay(data, phs, va)
  }

  lemma OverlayLast(data: seq<U8>, phs: seq<Phdr>, ph: Phdr, va: nat)
    requires AllSound(phs, |data|) && AllSound(phs + [ph], |data|) && (ph.load ==> Sound(ph, |data|))
    ensures Overlay(data, phs + [ph], va) == if InFile(ph, va) then data[ph.offset + (va - ph.vaddr)]
              else Overlay(data, phs, va)
  {
    assert (phs + [ph])[..|phs|] == phs;
  }

  lemma PageStep(pages: Pages, data: seq<U8>, phs: seq<Phdr>, ph: Phdr, page: nat)
    requires AllSound(phs, |data|) && AllSound(phs + [ph], |data|) && ph.load && Sound(ph, |data|)
    requires Partly(pages, data, phs, ph, page)
    requires page !in pages ==> forall va: nat :: va / PAGE == page ==> Overlay(data, phs, va) == 0
    ensures Partly(pages[page := Patched(Base(pages, page), data, ph, page)], data, phs, ph, page + 1)
  {
    hide Overlay;
    var pages' := pages[page := Patched(Base(pages, page), data, ph, page)];
    forall va: nat | ByteAt(pages', va) >= 0
      ensures ByteAt(pages', va) == if va / PAGE < page + 1 then Overlay(data, phs + [ph], va)
                else Overlay(data, phs, va)
    {
      if va / PAGE == page {
        OverlayLast(data, phs, ph, va);
        assert va == page * PAGE + va % PAGE;
        if page in pages { assert ByteAt(pages, va) == pages[page][va % PAGE]; }
      } else {
        assert ByteAt(pages', va) == ByteAt(pages, va);
      }
    }
  }

  /** All of `phs` is loaded: bytes, pages and permissions. */
  ghost predicate Good(pages: Pages, perms: map<nat, Perm>, data: seq<U8>, phs: seq<Phdr>)
  {
    && AllSound(phs, |data|) && Loaded(pages, data, phs) && Covered(pages, phs)
    && Granted(perms, phs) && pages.Keys == AllPages(phs)
  }

  /** Segment `ph` on top of `phs` is done for the pages below `page`. */
  ghost predicate Filling(pages: Pages, perms0: map<nat, Perm>, perms: map<nat, Perm>, data: seq<U8>, phs: seq<Phdr>,
                          ph: Phdr, page: nat)
  {
    && AllSound(phs, |data|) && AllSound(phs + [ph], |data|) && Partly(pages, data, phs, ph, page)
    && Covered(pages, phs)
    && Adds(perms0, perms, ph) && pages.Keys == AllPages(phs) + PagesTo(ph, page)
  }

  lemma FillStart(pages: Pages, perms: map<nat, Perm>, data: seq<U8>, phs: seq<Phdr>, ph: Phdr)
    requires Good(pages, perms, data, phs) && Sound(ph, |data|)
    ensures Filling(pages, perms, perms, data, phs, ph, ph.vaddr / PAGE)
  {
    hide Loaded, Covered, Granted, AllPages, Partly, Adds, Sound;
    SoundMore(phs, ph, |data|);
    BeginSegment(pages, data, phs, ph);
    AddsNone(perms, ph);
    assert PagesTo(ph, ph.vaddr / PAGE) == {};
  }

  lemma SoundMore(phs: seq<Phdr>, ph: Phdr, size: nat)
    requires AllSound(phs, size) && (ph.load ==> Sound(ph, size))
    ensures AllSound(phs + [ph], size)
  {
  }

  lemma FillStep(pages: Pages, perms0: map<nat, Perm>, perms: map<nat, Perm>, data: seq<U8>, phs: seq<Phdr>, ph: Phdr,
                 page: nat)
    requires Filling(pages, perms0, perms, data, phs, ph, page) && Sound(ph, |data|) && Touches(ph, page)
    requires perms.Keys == pages.Keys
    ensures Filling(pages[page := Patched(Base(pages, page), data, ph, page)], perms0,
                    if page in pages then perms else perms[page := Perm(ph.write, ph.exec)], data, phs, ph, page + 1)
  {
    hide Covered, AllPages, Partly, Adds, AllSound, Patched;
    FreshPage(pages, data, phs, page);
    PageStep(pages, data, phs, ph, page);
    CoveredMore(pages, phs, page, Patched(Base(pages, page), data, ph, page));
    assert page in perms.Keys <==> page in pages.Keys;
    AddsMore(perms0, perms, ph, page);
    assert PagesTo(ph, page + 1) == PagesTo(ph, page) + {page};
  }

  lemma FillEnd(pages: Pages, perms0: map<nat, Perm>, perms: map<nat, Perm>, data: seq<U8>, phs: seq<Phdr>, ph: Phdr)
    requires Filling(pages, perms0, perms, data, phs, ph, Last(ph)) && ph.load && Sound(ph, |data|)
    requires Granted(perms0, phs) && perms0.Keys == AllPages(phs)
    ensures Good(pages, perms, data, phs + [ph])
  {
    hide Loaded, Covered, Granted, AllPages, Partly, Adds, AllSound, Sound;
    AllPagesLast(phs, ph);
    assert PagesTo(ph, Last(ph)) == PagesOf(ph);
    assert forall p :: Touches(ph, p) ==> p in PagesOf(ph) && p in pages.Keys;
    EndSegment(pages, data, phs, ph);
    GrantedMore(perms0, perms, phs, ph);
  }

  /** The page loop of one segment: it succeeds exactly when there are frames for the
      pages that are not mapped yet. */
  method LoadSegment(m: Space, data: seq<U8>, ghost phs: seq<Phdr>, ph: Phdr) returns (ok: bool)
    requires m.Valid() && Good(m.pages, m.perms, data, phs) && ph.load && Sound(ph, |data|)
    modifies m
    ensures m.Valid()
    ensures (ok ==> Good(m.pages, m.perms, data, phs + [ph]) && Spent(m, |old(m.pages).Keys| + old(m.supply)))
    ensures ok <==> |AllPages(phs + [ph])| <= |old(m.pages).Keys| + old(m.supply)
  {
    hide Good, AllPages, Filling, Sound, Space.Valid;
    ghost var perms0, budget := m.perms, |m.pages.Keys| + m.supply;
    FillStart(m.pages, m.perms, data, phs, ph);
    GoodKeys(m, data, phs);
    var startPage, endPage := ph.vaddr / PAGE, (ph.vaddr + ph.memsz + 0xFFF) / PAGE;
    var page := startPage;
    while page < endPage
      invariant startPage <= page <= endPage || (page == startPage && endPage < startPage)
      invariant m.Valid() && Filling(m.pages, perms0, m.perms, data, phs, ph, page) && Spent(m, budget)
      decreases endPage - page
    {
      ok := FillPage(m, data, phs, ph, page, perms0, budget);
      if !ok { return false; }
      page := page + 1;
    }
    FillEnd(m.pages, perms0, m.perms, data, phs, ph);
    SizeOf(m.pages, m.perms, data, phs + [ph]);
    return true;
  }

  lemma GoodKeys(m: Space, data: seq<U8>, phs: seq<Phdr>)
    requires m.Valid() && Good(m.pages, m.perms, data, phs)
    ensures m.perms.Keys == AllPages(phs) && Granted(m.perms, phs)
  {
  }

  /** One turn of the page loop. */
  method FillPage(m: Space, data: seq<U8>, ghost phs: seq<Phdr>, ph: Phdr, page: nat, ghost perms0: map<nat, Perm>,
                  ghost budget: nat)
    returns (ok: bool)
    requires m.Valid() && ph.load && Sound(ph, |data|) && Touches(ph, page)
    requires Filling(m.pages, perms0, m.perms, data, phs, ph, page) && Spent(m, budget)
    modifies m
    ensures m.Valid() && (ok ==> Filling(m.pages, perms0, m.perms, data, phs, ph, page + 1) && Spent(m, budget))
    ensures !ok ==> |AllPages(phs + [ph])| > budget
  {
    hide AllPages, Filling, Patched, WriteXorExecute, PagesTo, PagesOf;
    FillKeys(m.pages, perms0, m.perms, data, phs, ph, page);
    FillStep(m.pages, perms0, m.perms, data, phs, ph, page);
    AllPagesLast(phs, ph);
    NextPage(m.pages, AllPages(phs), ph, page, m.supply, budget);
    ghost var was := m.pages.Keys;
    ok := LoadPage(m, data, ph, page);
    if !ok { return false; }
    assert m.pages.Keys == was + {page};
  }

  lemma FillKeys(pages: Pages, perms0: map<nat, Perm>, perms: map<nat, Perm>, data: seq<U8>, phs: seq<Phdr>, ph: Phdr,
                 page: nat)
    requires Filling(pages, perms0, perms, data, phs, ph, page)
    ensures pages.Keys == AllPages(phs) + PagesTo(ph, page)
  {
  }

  lemma SizeOf(pages: Pages, perms: map<nat, Perm>, data: seq<U8>, phs: seq<Phdr>)
    requires Good(pages, perms, data, phs)
    ensures |AllPages(phs)| == |pages.Keys|
  {
  }

  ghost function PagesTo(ph: Phdr, page: nat): set<nat>
  {
    set p: nat | p < page && Touches(ph, p)
  }

  /** Mapping the next page, or running out of frames there. */
  lemma NextPage(pages: Pages, keys: set<nat>, ph: Phdr, page: nat, supply: nat, budget: nat)
    requires pages.Keys == keys + PagesTo(ph, page) && Touches(ph, page) && |pages.Keys| + supply == budget
    ensures pages.Keys + {page} == keys + PagesTo(ph, page + 1)
    ensures |pages.Keys + {page}| == |pages.Keys| + if page in pages then 0 else 1
    ensures page !in pages && supply == 0 ==> |keys + PagesOf(ph)| > budget
  {
    NextTo(ph, page);
    hide PagesTo, PagesOf;
    assert pages.Keys + {page} == keys + PagesTo(ph, page + 1);
    if page in pages {
      assert page in pages.Keys && pages.Keys + {page} == pages.Keys;
    } else {
      assert page !in pages.Keys;
      OneMore(pages.Keys, page);
      SizeMono(pages.Keys + {page}, keys + PagesOf(ph));
    }
  }

  lemma NextTo(ph: Phdr, page: nat)
    requires Touches(ph, page)
    ensures PagesTo(ph, page + 1) == PagesTo(ph, page) + {page} && PagesTo(ph, page + 1) <= PagesOf(ph)
  {
  }

  lemma BeginSegment(pages: Pages, data: seq<U8>, phs: seq<Phdr>, ph: Phdr)
    requires (ph.load ==> Sound(ph, |data|)) && AllSound(phs, |data|) && AllSound(phs + [ph], |data|)
    requires Loaded(pages, data, phs)
    ensures Partly(pages, data, phs, ph, ph.vaddr / PAGE)
  {
    hide Overlay;
    forall va: nat | ByteAt(pages, va) >= 0
      ensures ByteAt(pages, va) == if va / PAGE < ph.vaddr / PAGE then Overlay(data, phs + [ph], va)
                else Overlay(data, phs, va)
    {
      OverlayLast(data, phs, ph, va);
    }
  }

  /** A page that is not mapped yet holds no byte of an earlier segment. */
  lemma FreshPage(pages: Pages, data: seq<U8>, phs: seq<Phdr>, page: nat)
    requires AllSound(phs, |data|) && Covered(pages, phs)
    ensures page !in pages ==> forall va: nat :: va / PAGE == page ==> Overlay(data, phs, va) == 0
  {
    hide Overlay;
    if page !in pages {
      forall va: nat | va / PAGE == page ensures Overlay(data, phs, va) == 0 {
        forall i | 0 <= i < |phs| ensures !InFile(phs[i], va) {
          assert ByteAt(pages, va) == -1 && !InMemory(phs[i], va);
        }
        NoSegment(data, phs, va);
      }
    }
  }

  lemma CoveredMore(pages: Pages, phs: seq<Phdr>, page: nat, bytes: Page)
    requires Covered(pages, phs)
    ensures Covered(pages[page := bytes], phs)
  {
    forall i, va: nat | 0 <= i < |phs| && InMemory(phs[i], va) ensures ByteAt(pages[page := bytes], va) >= 0 {
      assert ByteAt(pages, va) >= 0;
    }
  }

  lemma EndSegment(pages: Pages, data: seq<U8>, phs: seq<Phdr>, ph: Phdr)
    requires AllSound(phs, |data|) && AllSound(phs + [ph], |data|) && ph.load && Sound(ph, |data|)
    requires Covered(pages, phs)
    requires Partly(pages, data, phs, ph, Last(ph))
    requires forall p :: ph.vaddr / PAGE <= p < (ph.vaddr + ph.memsz + 0xFFF) / PAGE ==> p in pages
    ensures Loaded(pages, data, phs + [ph]) && Covered(pages, phs + [ph])
  {
    hide Overlay;
    forall va: nat | ByteAt(pages, va) >= 0 ensures ByteAt(pages, va) == Overlay(data, phs + [ph], va) {
      OverlayLast(data, phs, ph, va);
      if va / PAGE >= Last(ph) { BeyondLast(ph, va); }
    }
    var all := phs + [ph];
    forall i, va: nat | 0 <= i < |all| && InMemory(all[i], va) ensures ByteAt(pages, va) >= 0 {
      if i == |phs| {
        assert ph.vaddr / PAGE <= va / PAGE < (ph.vaddr + ph.memsz + 0xFFF) / PAGE;
      } else {
        assert InMemory(phs[i], va);
      }
    }
  }

  function Last(ph: Phdr): nat
  {
    var s, e := ph.vaddr / PAGE, (ph.vaddr + ph.memsz + 0xFFF) / PAGE;
    if s < e then e else s
  }

  lemma BeyondLast(ph: Phdr, va: nat)
    requires va / PAGE >= Last(ph) && ph.filesz <= ph.memsz
    ensures !InFile(ph, va)
  {
  }

  // -------------------------------------------------------------- the loader

  /** The program headers of a file whose headers passed the checks. */
  function Headers(data: seq<U8>): (r: seq<Phdr>)
    requires Readable(data)
    ensures |r| == ReadEhdr(data).phnum
  {
    var h := ReadEhdr(data);
    seq(h.phnum, i requires 0 <= i < h.phnum => (EntryAtInside(data, i); ReadPhdr(data, h.phoff + i * h.phentsize)))
  }

  lemma EntryAtInside(data: seq<U8>, i: nat)
    requires Readable(data) && i < ReadEhdr(data).phnum
    ensures var h := ReadEhdr(data); h.phoff + i * h.phentsize + 56 <= |data|
  {
    var h := ReadEhdr(data);
    Mono(i, h.phnum - 1, h.phentsize);
  }

  lemma HeaderWords(data: seq<U8>, i: nat)
    requires Readable(data) && i < ReadEhdr(data).phnum
    ensures Words64(Headers(data)[i])
  {
    var h := ReadEhdr(data);
    EntryAtInside(data, i);
    var at := h.phoff + i * h.phentsize;
    FieldBound(data, at + 8, 8);
    FieldBound(data, at + 16, 8);
    FieldBound(data, at + 32, 8);
    FieldBound(data, at + 40, 8);
  }

  predicate HasEntry(ph: Phdr, entry: nat)
  {
    ph.load && ph.exec && ph.vaddr <= entry < ph.vaddr + ph.memsz
  }

  /** The segment loop. A format error is that of the first bad segment. */
  method LoadSegments(m: Space, data: seq<U8>) returns (r: Status)
    requires m.Valid() && m.pages == map[] && m.perms == map[] && Readable(data) && |data| < WORD
    modifies m
    ensures m.Valid()
    ensures r == Success ==> Good(m.pages, m.perms, data, Headers(data)) && Spent(m, old(m.supply))
    ensures r == VmmError ==> |AllPages(Headers(data))| > old(m.supply)
    ensures r == Success ==> exists i :: 0 <= i < |Headers(data)| && HasEntry(Headers(data)[i], ReadEhdr(data).entry)
    ensures r == EntryOutOfBounds ==>
              forall i :: 0 <= i < |Headers(data)| ==> !HasEntry(Headers(data)[i], ReadEhdr(data).entry)
    ensures r != StackError
    ensures r != Success && r != EntryOutOfBounds && r != VmmError ==>
              exists i :: 0 <= i < |Headers(data)| && FirstBad(Headers(data), i, |data|, r)
  {
    hide Good, CheckSegment, ReadPhdr, ReadEhdr, AllPages, Spent, Sound, Headers, WriteXorExecute;
    ghost var budget := m.supply;
    var h := ReadEhdr(data);
    var phs := Headers(data);
    var entryFound := false;
    assert phs[..0] == [];
    NothingLoaded(m, data);
    for i := 0 to |phs|
      invariant m.Valid() && Good(m.pages, m.perms, data, phs[..i]) && Spent(m, budget)
      invariant entryFound <==> exists j :: 0 <= j < i && HasEntry(phs[j], h.entry)
    {
      var ph := phs[i];
      HeaderWords(data, i);
      assert phs[..i + 1] == phs[..i] + [ph];
      SpentKeys(m, budget);
      if ph.load {
        var check := CheckSegment(ph, |data|);
        CheckedSound(ph, |data|);
        if check != Success {
          CheckNot(ph, |data|);
          GoodSound(m.pages, m.perms, data, phs[..i]);
          assert FirstBad(phs, i, |data|, check);
          return check;
        }
        if !entryFound && ph.exec && ph.vaddr <= h.entry < ph.vaddr + ph.memsz { entryFound := true; }
        var ok := LoadSegment(m, data, phs[..i], ph);
        if !ok {
          AllPagesMono(phs, i + 1);
          SizeMono(AllPages(phs[..i + 1]), AllPages(phs));
          return VmmError;
        }
      } else {
        SkipSegment(m.pages, m.perms, data, phs[..i], ph);
      }
    }
    assert phs[..|phs|] == phs;
    if !entryFound { return EntryOutOfBounds; }
    return Success;
  }

  lemma GoodSound(pages: Pages, perms: map<nat, Perm>, data: seq<U8>, phs: seq<Phdr>)
    requires Good(pages, perms, data, phs)
    ensures AllSound(phs, |data|)
  {
  }

  /** Segment `i` is the first that the checks reject, with status `r`. */
  ghost predicate FirstBad(phs: seq<Phdr>, i: nat, size: nat, r: Status)
    requires i < |phs|
  {
    phs[i].load && CheckSegment(phs[i], size) == r && r != Success && AllSound(phs[..i], size)
  }

  lemma SpentKeys(m: Space, budget: nat)
    requires Spent(m, budget)
    ensures |m.pages.Keys| + m.supply == budget
  {
  }

  lemma NothingLoaded(m: Space, data: seq<U8>)
    requires m.pages == map[] && m.perms == map[]
    ensures Good(m.pages, m.perms, data, []) && Spent(m, m.supply)
  {
  }

  lemma CheckNot(ph: Phdr, size: nat)
    ensures CheckSegment(ph, size) != EntryOutOfBounds && CheckSegment(ph, size) != VmmError
    ensures CheckSegment(ph, size) != StackError
  {
  }

  lemma SkipSegment(pages: Pages, perms: map<nat, Perm>, data: seq<U8>, phs: seq<Phdr>, ph: Phdr)
    requires Good(pages, perms, data, phs) && !ph.load && perms.Keys == pages.Keys
    ensures Good(pages, perms, data, phs + [ph])
  {
    hide Overlay, AllPages, Granted;
    SoundMore(phs, ph, |data|);
    forall va: nat | ByteAt(pages, va) >= 0
      ensures ByteAt(pages, va) == Overlay(data, phs + [ph], va)
    {
      OverlayLast(data, phs, ph, va);
    }
    var all := phs + [ph];
    forall i, va: nat | 0 <= i < |all| && InMemory(all[i], va)
      ensures ByteAt(pages, va) >= 0
    {
      assert InMemory(phs[i], va);
    }
    AllPagesLast(phs, ph);
    AddsNone(perms, ph);
    GrantedMore(perms, perms, phs, ph);
  }

  /** No page of the stack is taken, and there are frames for all of them. */
  ghost predicate StackRoom(keys: set<nat>, supply: nat)
  {
    16 <= supply && forall p :: BOTTOM / PAGE <= p < TOP / PAGE ==> p !in keys
  }

  /** The stack's pages up to `page` are writable and not executable; the others have
      the permissions they had. */
  ghost predicate StackPerms(perms: map<nat, Perm>, perms': map<nat, Perm>, page: nat)
  {
    forall p :: p in perms' ==>
        if BOTTOM / PAGE <= p < page then perms'[p] == Perm(true, false) else p in perms && perms'[p] == perms[p]
  }

  /** The loop that maps the stack: it succeeds only where nothing is mapped yet. */
  method MapStack(m: Space) returns (ok: bool)
    requires m.Valid()
    modifies m
    ensures m.Valid() && (ok ==> StackMapped(m.pages))
    ensures ok ==>
              forall p :: p in old(m.pages) ==>
                  p in m.pages && m.pages[p] == old(m.pages)[p] && !(BOTTOM / PAGE <= p < TOP / PAGE)
    ensures ok ==> StackPerms(old(m.perms), m.perms, TOP / PAGE)
    ensures ok <==> StackRoom(old(m.pages).Keys, old(m.supply))
  {
    var page := BOTTOM / PAGE;
    while page < TOP / PAGE
      invariant BOTTOM / PAGE <= page <= TOP / PAGE && m.Valid()
      invariant forall p :: BOTTOM / PAGE <= p < page ==> p in m.pages
      invariant forall p :: p in old(m.pages) ==>
                  p in m.pages && m.pages[p] == old(m.pages)[p] && !(BOTTOM / PAGE <= p < page)
      invariant StackPerms(old(m.perms), m.perms, page)
      invariant m.supply == old(m.supply) - (page - BOTTOM / PAGE)
      invariant forall p :: page <= p < TOP / PAGE ==> (p in m.pages <==> p in old(m.pages))
    {
      ok := m.MapZeroed(page, Perm(true, false));
      if !ok { return false; }
      page := page + 1;
    }
    return true;
  }

  /** Every segment byte that the arguments, from `low` on, did not reach is what the
      file prescribes. */
  ghost predicate InPlace(pages: Pages, data: seq<U8>, phs: seq<Phdr>, low: nat)
    requires AllSound(phs, |data|)
  {
    forall i, va: nat :: 0 <= i < |phs| && InMemory(phs[i], va) && !(low <= va < TOP) ==>
      ByteAt(pages, va) == Overlay(data, phs, va)
  }

  /** No segment meets the sixteen pages of the stack. */
  ghost predicate OffStack(phs: seq<Phdr>)
  {
    forall i, va: nat :: 0 <= i < |phs| && InMemory(phs[i], va) ==> !(BOTTOM <= va < TOP)
  }

  /** elf_load_image into a new address space. On success every byte of every
      segment is what the file prescribes, unless the arguments reached down to it;
      the stack reads as argc, argv and envp exactly when there was memory for them,
      as there is when they fit the stack; the entry point lies in an executable
      segment, and no page is both writable and executable. */
  method LoadImage(m: Space, data: seq<U8>, args: seq<CString>, env: seq<CString>)
    returns (r: Status, entry: nat, rsp: nat)
    requires m.Valid() && m.pages == map[] && m.perms == map[] && |data| < WORD
    requires CheckHeader(data) == Success ==> Readable(data)
    requires Sized(Truncated(args), Truncated(env)) && NoNuls(args) && NoNuls(env)
    modifies m
    ensures m.Valid()
    ensures CheckHeader(data) != Success ==> r == CheckHeader(data)
    ensures CheckHeader(data) == Success && r != Success && r != EntryOutOfBounds && r != VmmError
              && r != StackError ==>
              exists i :: 0 <= i < |Headers(data)| && FirstBad(Headers(data), i, |data|, r)
    ensures r == Success <==> CheckHeader(data) == Success && Loadable(data, old(m.supply))
    ensures r == Success ==> CheckHeader(data) == Success && AllSound(Headers(data), |data|)
    ensures r == Success ==> rsp == StackPointer(Truncated(args), Truncated(env))
    ensures r == Success ==> InPlace(m.pages, data, Headers(data), rsp) && OffStack(Headers(data))
    ensures r == Success ==>
              (Started(m.pages, rsp, Truncated(args), Truncated(env)) <==>
                  Backed(m.pages, Truncated(args), Truncated(env)))
    ensures r == Success && Fits(Truncated(args), Truncated(env)) ==>
              BOTTOM <= rsp && Started(m.pages, rsp, Truncated(args), Truncated(env))
    ensures r == Success ==> exists perms :: Granted(perms, Headers(data)) && StackPerms(perms, m.perms, TOP / PAGE)
    ensures r == Success ==>
              entry == ReadEhdr(data).entry && exists i :: 0 <= i < |Headers(data)| && HasEntry(Headers(data)[i], entry)
    ensures CheckHeader(data) == Success && r == EntryOutOfBounds ==>
              forall i :: 0 <= i < |Headers(data)| ==> !HasEntry(Headers(data)[i], ReadEhdr(data).entry)
    ensures CheckHeader(data) == Success && r == VmmError ==> |AllPages(Headers(data))| > old(m.supply)
    ensures CheckHeader(data) == Success && r == StackError ==>
              |AllPages(Headers(data))| <= old(m.supply)
              && !StackRoom(AllPages(Headers(data)), old(m.supply) - |AllPages(Headers(data))|)
  {
    hide Loaded, Covered, Overlay, ReadPhdr, ReadEhdr, Readable, CheckHeader, Started, StackMapped, OnlyStack, Fits;
    hide Truncated, Headers, Granted, StackPerms, AllPages, StackRoom, Loadable, Spent, FirstBad, HasEntry, AllSound;
    hide Good, Sized, Backed, StackPointer, InMemory, InPlace, OffStack;
    entry, rsp := 0, 0;
    var check := CheckHeader(data);
    if check != Success { return check, entry, rsp; }
    HeaderSize(data);
    ghost var frames := m.supply;
    var loaded := LoadSegments(m, data);
    NotLoadable(data, frames, loaded);
    if loaded != Success { return loaded, entry, rsp; }
    SpentKeys(m, frames);
    GoodParts(m.pages, m.perms, data);
    LoadableWhen(data, frames, m.supply);
    ghost var p1 := m.pages;
    var ok := MapStack(m);
    if !ok { return StackError, entry, rsp; }
    ghost var p2 := m.pages;
    TruncatedLength(args);
    TruncatedLength(env);
    rsp := BuildStack(m, args, env);
    StillMapped(p2, m.pages, rsp);
    if Fits(Truncated(args), Truncated(env)) { FitsBacked(m.pages, Truncated(args), Truncated(env)); }
    entry := ReadEhdr(data).entry;
    AllSurvive(p1, p2, m.pages, rsp, data, Headers(data));
    return Success, entry, rsp;
  }

  /** What a load asks for besides a good header: good segments, an entry point, and
      frames for all segment pages and the stack, which must not meet. */
  ghost predicate Loadable(data: seq<U8>, frames: nat)
    requires Readable(data)
  {
    var phs := Headers(data);
    && AllSound(phs, |data|) && (exists i :: 0 <= i < |phs| && HasEntry(phs[i], ReadEhdr(data).entry))
    && |AllPages(phs)| <= frames && StackRoom(AllPages(phs), frames - |AllPages(phs)|)
  }

  /** The same in numbers. */
  lemma LoadableMeans(data: seq<U8>, frames: nat)
    requires Readable(data)
    ensures var phs, entry := Headers(data), ReadEhdr(data).entry;
            Loadable(data, frames) <==>
              && (forall i :: 0 <= i < |phs| && phs[i].load ==>
                    && phs[i].filesz <= phs[i].memsz && phs[i].offset + phs[i].filesz <= |data|
                    && phs[i].vaddr + phs[i].memsz <= 0x7FFF_FFFF_FFFF && !(phs[i].write && phs[i].exec))
              && (exists i :: 0 <= i < |phs| && phs[i].load && phs[i].exec
                              && phs[i].vaddr <= entry < phs[i].vaddr + phs[i].memsz)
              && |AllPages(phs)| + 16 <= frames
              && (forall p :: 0x7_FFFF_FFEF <= p < 0x7_FFFF_FFFF ==> p !in AllPages(phs))
  {
    hide Headers, ReadEhdr, AllPages;
  }

  lemma LoadableWhen(data: seq<U8>, frames: nat, left: nat)
    requires Readable(data) && AllSound(Headers(data), |data|) && |AllPages(Headers(data))| + left == frames
    requires exists i :: 0 <= i < |Headers(data)| && HasEntry(Headers(data)[i], ReadEhdr(data).entry)
    ensures Loadable(data, frames) <==> StackRoom(AllPages(Headers(data)), left)
  {
  }

  /** Each way in which the segments fail is a reason not to be loadable. */
  lemma NotLoadable(data: seq<U8>, frames: nat, r: Status)
    requires Readable(data) && r != StackError && |data| < WORD
    requires r == EntryOutOfBounds ==>
               forall i :: 0 <= i < |Headers(data)| ==> !HasEntry(Headers(data)[i], ReadEhdr(data).entry)
    requires r == VmmError ==> |AllPages(Headers(data))| > frames
    requires r != Success && r != EntryOutOfBounds && r != VmmError ==>
               exists i :: 0 <= i < |Headers(data)| && FirstBad(Headers(data), i, |data|, r)
    ensures r != Success ==> !Loadable(data, frames)
  {
    hide AllPages, HasEntry, CheckSegment, Sound, ReadEhdr, Headers, Readable;
    if r != Success && r != EntryOutOfBounds && r != VmmError {
      var i :| 0 <= i < |Headers(data)| && FirstBad(Headers(data), i, |data|, r);
      BadSegment(data, i);
    }
  }

  lemma BadSegment(data: seq<U8>, i: nat)
    requires Readable(data) && |data| < WORD && i < |Headers(data)| && Headers(data)[i].load
    requires CheckSegment(Headers(data)[i], |data|) != Success
    ensures !AllSound(Headers(data), |data|)
  {
    HeaderWords(data, i);
    CheckedSound(Headers(data)[i], |data|);
  }

  lemma GoodParts(pages: Pages, perms: map<nat, Perm>, data: seq<U8>)
    requires Readable(data) && Good(pages, perms, data, Headers(data))
    ensures AllSound(Headers(data), |data|) && Loaded(pages, data, Headers(data)) && Covered(pages, Headers(data))
    ensures Granted(perms, Headers(data)) && pages.Keys == AllPages(Headers(data))
  {
  }

  lemma HeaderSize(data: seq<U8>)
    requires CheckHeader(data) == Success
    ensures 64 <= |data|
  {
  }

  lemma TruncatedLength(ss: seq<CString>)
    ensures |Truncated(ss)| <= MAX_ARGS
  {
  }

  lemma StillMapped(pages: Pages, pages': Pages, low: nat)
    requires StackMapped(pages) && OnlyStack(pages, pages', low)
    ensures StackMapped(pages')
  {
    forall p | BOTTOM / PAGE <= p < TOP / PAGE ensures p in pages' { assert p in pages && p in pages'.Keys; }
  }

  /** Mapping the stack leaves the segments alone, and filling it those that it does
      not reach. */
  lemma Survives(p1: Pages, p2: Pages, p3: Pages, low: nat, data: seq<U8>, phs: seq<Phdr>, i: nat, va: nat)
    requires AllSound(phs, |data|) && Loaded(p1, data, phs) && Covered(p1, phs) && i < |phs| && InMemory(phs[i], va)
    requires forall p :: p in p1 ==> p in p2 && p2[p] == p1[p] && !(BOTTOM / PAGE <= p < TOP / PAGE)
    requires OnlyStack(p2, p3, low)
    ensures !(BOTTOM <= va < TOP) && (!(low <= va < TOP) ==> ByteAt(p3, va) == Overlay(data, phs, va))
  {
    hide Overlay;
    assert ByteAt(p1, va) >= 0;
    assert ByteAt(p2, va) == ByteAt(p1, va);
    assert va < BOTTOM || TOP <= va;
  }

  lemma AllSurvive(p1: Pages, p2: Pages, p3: Pages, low: nat, data: seq<U8>, phs: seq<Phdr>)
    requires AllSound(phs, |data|) && Loaded(p1, data, phs) && Covered(p1, phs)
    requires forall p :: p in p1 ==> p in p2 && p2[p] == p1[p] && !(BOTTOM / PAGE <= p < TOP / PAGE)
    requires OnlyStack(p2, p3, low)
    ensures InPlace(p3, data, phs, low) && OffStack(phs)
  {
    hide Overlay, InMemory, Loaded, Covered, OnlyStack;
    forall i, va: nat | 0 <= i < |phs| && InMemory(phs[i], va) ensures !(BOTTOM <= va < TOP) {
      Survives(p1, p2, p3, low, data, phs, i, va);
    }
    forall i, va: nat | 0 <= i < |phs| && InMemory(phs[i], va) && !(low <= va < TOP)
      ensures ByteAt(p3, va) == Overlay(data, phs, va)
    {
      Survives(p1, p2, p3, low, data, phs, i, va);
    }
  }
}
