/** kernel/memory/vmm.c: page tables kept in physical memory, with frames taken
    from and given back to the physical memory manager. */
module Vmm {
  import opened Bits
  import opened Paging
  import Pmm

  const PAGE: nat := 4096
  const LOWER_END: nat := 0x8000_0000_0000 // 2^47
  const WORD: nat := 0x1_0000_0000_0000_0000 // 2^64

  // ------------------------------------------------------------ addresses

  /** pml4_index, pdpt_index, pd_index and pt_index. */
  function PathOf(va: nat): Path
  {
    [va / 0x80_0000_0000 % 512, va / 0x4000_0000 % 512, va / 0x20_0000 % 512, va / 0x1000 % 512]
  }

  predicate IsCanonical(va: nat)
  {
    va / LOWER_END == 0 || va / LOWER_END == 0x1FFFF
  }

  /** The lower 2^47 bytes and the upper 2^47 bytes are canonical, and nothing between. */
  lemma CanonicalMeans(va: nat)
    requires va < WORD
    ensures IsCanonical(va) <==> va < 0x8000_0000_0000 || 0xFFFF_8000_0000_0000 <= va
  {
  }

  // ------------------------------------------------------------ entry words

  const PTE_PRESENT: bv64 := 1
  const PTE_WRITABLE: bv64 := 2
  const PTE_USER: bv64 := 4
  const PDE_PS: bv64 := 0x80
  const PTE_NO_EXECUTE: bv64 := 0x8000_0000_0000_0000
  const PTE_FRAME_MASK: bv64 := 0x000F_FFFF_FFFF_F000

  /** flags_to_pte */
  function FlagsToPte(write: bool, user: bool, noExec: bool): bv64
  {
    (if write then PTE_WRITABLE else 0) | (if user then PTE_USER else 0) | (if noExec then PTE_NO_EXECUTE else 0)
  }

  /** An entry word holds the frame address and each flag apart from the others,
      so reading it as a record loses nothing. */
  lemma EntryWord(phys: bv64, write: bool, user: bool, noExec: bool)
    requires phys & PTE_FRAME_MASK == phys
    ensures var w := phys | FlagsToPte(write, user, noExec) | PTE_PRESENT;
            && w & PTE_FRAME_MASK == phys && w & PTE_PRESENT != 0 && w & PDE_PS == 0
            && (w & PTE_WRITABLE != 0 <==> write) && (w & PTE_USER != 0 <==> user)
            && (w & PTE_NO_EXECUTE != 0 <==> noExec)
  {
    var fl := FlagsToPte(write, user, noExec);
    assert fl & PTE_FRAME_MASK == 0 && fl & PTE_PRESENT == 0 && fl & PDE_PS == 0;
    assert (fl & PTE_WRITABLE != 0 <==> write) && (fl & PTE_USER != 0 <==> user);
    assert (fl & PTE_NO_EXECUTE != 0 <==> noExec);
    MaskOr(phys, fl);
  }

  lemma MaskOr(p: bv64, fl: bv64)
    requires p & PTE_FRAME_MASK == p && fl & PTE_FRAME_MASK == 0 && fl & PTE_PRESENT == 0 && fl & PDE_PS == 0
    ensures var w := p | fl | PTE_PRESENT;
            && w & PTE_FRAME_MASK == p && w & PTE_PRESENT != 0 && w & PDE_PS == 0
            && w & PTE_WRITABLE == fl & PTE_WRITABLE
            && w & PTE_USER == fl & PTE_USER && w & PTE_NO_EXECUTE == fl & PTE_NO_EXECUTE
  {
  }

  lemma PathOfLower(va: nat)
    requires va < LOWER_END
    ensures IsPath(PathOf(va)) && |PathOf(va)| == 4
  {
  }

  /** Two lower-half addresses share all four indices exactly when they lie on
      the same page. */
  lemma PathOfPage(va: nat, vb: nat)
    requires va < LOWER_END && vb < LOWER_END
    ensures PathOf(va) == PathOf(vb) <==> va / PAGE == vb / PAGE
  {
    Recompose(va);
    Recompose(vb);
    if PathOf(va) == PathOf(vb) {
      assert PathOf(va)[0] == PathOf(vb)[0] && PathOf(va)[1] == PathOf(vb)[1];
      assert PathOf(va)[2] == PathOf(vb)[2] && PathOf(va)[3] == PathOf(vb)[3];
    }
    if va / PAGE == vb / PAGE {
      PageDigits(va);
      PageDigits(vb);
    }
  }

  lemma Recompose(va: nat)
    requires va < LOWER_END
    ensures var p := PathOf(va); va / PAGE == ((p[0] * 512 + p[1]) * 512 + p[2]) * 512 + p[3]
  {
    var n := va / PAGE;
    PageDigits(va);
    var a, b := n / 512, n / 512 / 512;
    assert n == a * 512 + n % 512 && a == b * 512 + a % 512 && b == b / 512 * 512 + b % 512;
    assert b / 512 < 256;
  }

  lemma PageDigits(va: nat)
    ensures var n := va / PAGE;
            PathOf(va) == [n / 512 / 512 / 512 % 512, n / 512 / 512 % 512, n / 512 % 512, n % 512]
  {
    var n := va / PAGE;
    assert va / 0x20_0000 == n / 512;
    assert va / 0x4000_0000 == n / 512 / 512;
    assert va / 0x80_0000_0000 == n / 512 / 512 / 512;
  }

  // ------------------------------------------------- what the processor does

  /** The bytes that an entry of a table at `level` maps: 4 KiB, 2 MiB, 1 GiB, 512 GiB. */
  function Span(level: nat): (n: nat)
    ensures n > 0
  {
    if level == 0 then 0x1000 else if level == 1 then 0x20_0000 else if level == 2 then 0x4000_0000 else 0x80_0000_0000
  }

  function Index(va: nat, level: nat): (i: nat)
    ensures i < 512
  {
    va / Span(level) % 512
  }

  /** The entry maps memory itself and leads to no further table. */
  predicate MapsMemory(e: Pte, level: nat)
  {
    level == 0 || (e.huge && level <= 2)
  }

  /** The tables on the way to `va` lie in memory. */
  predicate Stays(m: Mem, t: nat, va: nat, level: nat)
    decreases level
  {
    t < |m| && var e := m[t][Index(va, level)]; e.present && !MapsMemory(e, level) ==> Stays(m, e.frame, va, level - 1)
  }

  datatype Walk = Fault | Hit(phys: nat, level: nat, user: bool, writable: bool, exec: bool)

  /** The processor's walk from table `t`: the first entry that maps memory gives the
      address, and a right must be granted all the way (section 4.5 of the Intel 64
      Architectures Software Developer's Manual, volume 3A). */
  function Walked(m: Mem, t: nat, va: nat, level: nat): Walk
    requires Stays(m, t, va, level)
    decreases level
  {
    var e := m[t][Index(va, level)];
    if !e.present then Fault
    else if MapsMemory(e, level) then Hit(e.frame * PAGE + va % Span(level), level, e.user, e.writable, !e.noExec)
    else
      match Walked(m, e.frame, va, level - 1)
      case Fault => Fault
      case Hit(phys, l, user, writable, exec) =>
        Hit(phys, l, e.user && user, e.writable && writable, !e.noExec && exec)
  }

  /** One level of the walk. */
  lemma Down(m: Mem, t: nat, va: nat, level: nat)
    requires Stays(m, t, va, level)
    ensures t < |m|
    ensures var e := m[t][Index(va, level)];
            e.present && !MapsMemory(e, level) ==>
              && level > 0 && Stays(m, e.frame, va, level - 1)
              && var w := Walked(m, e.frame, va, level - 1);
                 Walked(m, t, va, level) ==
                   if w.Fault? then Fault
                   else w.(user := e.user && w.user, writable := e.writable && w.writable, exec := !e.noExec && w.exec)
    ensures var e := m[t][Index(va, level)];
            e.present && MapsMemory(e, level) ==>
              Walked(m, t, va, level) == Hit(e.frame * PAGE + va % Span(level), level, e.user, e.writable, !e.noExec)
    ensures !m[t][Index(va, level)].present ==> Walked(m, t, va, level) == Fault
  {
  }

  /** The walk from the root, level by level. */
  lemma WalkMeans(m: Mem, root: nat, va: nat)
    requires Stays(m, root, va, 3)
    ensures root < |m|
    ensures
      var w, a := Walked(m, root, va, 3), m[root][va / 0x80_0000_0000 % 512];
      if !a.present then w == Fault
      else
        && a.frame < |m|
        && var b := m[a.frame][va / 0x4000_0000 % 512];
           if !b.present then w == Fault
           else if b.huge then
             w == Hit(b.frame * 4096 + va % 0x4000_0000, 2, a.user && b.user, a.writable && b.writable,
                      !a.noExec && !b.noExec)
           else
             && b.frame < |m|
             && var c := m[b.frame][va / 0x20_0000 % 512];
                if !c.present then w == Fault
                else if c.huge then
                  w == Hit(c.frame * 4096 + va % 0x20_0000, 1, a.user && b.user && c.user,
                           a.writable && b.writable && c.writable, !a.noExec && !b.noExec && !c.noExec)
                else
                  && c.frame < |m|
                  && var d := m[c.frame][va / 0x1000 % 512];
                     if !d.present then w == Fault
                     else
                       w == Hit(d.frame * 4096 + va % 0x1000, 0, a.user && b.user && c.user && d.user,
                                a.writable && b.writable && c.writable && d.writable,
                                !a.noExec && !b.noExec && !c.noExec && !d.noExec)
  {
    hide Stays, Walked;
    Down(m, root, va, 3);
    var a := m[root][va / 0x80_0000_0000 % 512];
    if a.present {
      Down(m, a.frame, va, 2);
      var b := m[a.frame][va / 0x4000_0000 % 512];
      if b.present && !b.huge {
        Down(m, b.frame, va, 1);
        var c := m[b.frame][va / 0x20_0000 % 512];
        if c.present && !c.huge { Down(m, c.frame, va, 0); }
      }
    }
  }

  /** User code may read, or write, where the walk leads. */
  predicate Lets(w: Walk, write: bool)
  {
    w.Hit? && w.user && (write ==> w.writable)
  }

  // -------------------------------------------------------- address spaces

  /** An address space: `s` are the frames in use, `first` is where boot's own
      memory ends. Its tables form a tree of frames in use. */
  ghost predicate Space(m: Mem, s: set<nat>, first: nat, root: nat)
  {
    && Tree(m, root) && Permits(m, root) && Nodes(m, root) <= s
    && forall f :: f in Nodes(m, root) ==> first <= f * PAGE
  }

  /** The leaf entry that a lower-half address translates through. */
  ghost function Translation(m: Mem, root: nat, va: nat): Pte
    requires va < LOWER_END
  {
    PathOfLower(va);
    Leaf(m, root, PathOf(va))
  }

  ghost predicate SameLeaves(m: Mem, m': Mem, root: nat)
  {
    forall q :: IsPath(q) && |q| == 4 ==> Leaf(m', root, q) == Leaf(m, root, q)
  }

  /** What every operation on an address space keeps: frames in use that are not
      its tables stay in use, no frame is taken but for a table, and memory in use
      elsewhere is untouched. */
  ghost predicate Kept(m: Mem, s: set<nat>, m': Mem, s': set<nat>, root: nat)
  {
    && |m'| == |m| && s' - Nodes(m', root) == s - Nodes(m, root) && Nodes(m, root) <= Nodes(m', root)
    && forall f :: f in s - Nodes(m, root) && f < |m| ==> m'[f] == m[f]
  }

  lemma KeptTrans(m: Mem, s: set<nat>, m1: Mem, s1: set<nat>, m2: Mem, s2: set<nat>, root: nat)
    requires Kept(m, s, m1, s1, root) && Kept(m1, s1, m2, s2, root)
    ensures Kept(m, s, m2, s2, root)
  {
    hide Nodes;
  }

  /** Every other address space keeps its tables, permissions and translations,
      and stays apart from this one. */
  lemma OtherSpace(m: Mem, s: set<nat>, m': Mem, s': set<nat>, first: nat, root: nat, other: nat)
    requires Kept(m, s, m', s', root) && Space(m, s, first, other) && Nodes(m, other) !! Nodes(m, root)
    ensures Space(m', s', first, other) && Nodes(m', other) == Nodes(m, other) && Nodes(m', other) !! Nodes(m', root)
    ensures SameLeaves(m, m', other)
  {
    hide Tree, Permits, At, Leaf;
    NodesInMemory(m, other);
    hide Nodes;
    forall f | f in Nodes(m, other) ensures m'[f] == m[f] && f in s' && f !in Nodes(m', root) {
      assert f in s - Nodes(m, root);
      assert f in s' - Nodes(m', root);
    }
    SpaceFrame(m, m', other);
  }

  lemma NodesInMemory(m: Mem, root: nat)
    ensures forall f :: f in Nodes(m, root) ==> f < |m|
  {
  }

  // ------------------------------------------------- one step down the tree

  function Widened(e: Pte, user: bool, write: bool): Pte
  {
    e.(user := e.user || user, writable := e.writable || write)
  }

  function Link(f: nat, user: bool, write: bool): Pte
  {
    Pte(true, write, user, false, false, f)
  }

  lemma NextAt(m: Mem, root: nat, p: Path, i: nat)
    requires TablePath(p) && Inner(p, i) && 0 <= At(m, root, p) < |m|
    ensures TablePath(p + [i])
    ensures At(m, root, p + [i]) == var e := m[At(m, root, p)][i]; if e.present then e.frame else -1
  {
    assert Up(p + [i]) == p && Last(p + [i]) == i;
  }

  lemma NextGrants(m: Mem, root: nat, p: Path, i: nat, user: bool, write: bool)
    requires TablePath(p) && Inner(p, i) && 0 <= At(m, root, p) < |m| && Grants(m, root, p, user, write)
    requires var e := m[At(m, root, p)][i]; (user ==> e.user) && (write ==> e.writable)
    ensures IsPath(p + [i]) && Grants(m, root, p + [i], user, write)
  {
    assert Up(p + [i]) == p && Last(p + [i]) == i;
  }

  lemma DescendPresent(m: Mem, s: set<nat>, first: nat, root: nat, p: Path, i: nat, user: bool, write: bool)
    requires Space(m, s, first, root) && TablePath(p) && Inner(p, i) && 0 <= At(m, root, p) < |m|
    requires m[At(m, root, p)][i].present && Grants(m, root, p, user, write)
    ensures var m' := SetEntry(m, At(m, root, p), i, Widened(m[At(m, root, p)][i], user, write));
            && Space(m', s, first, root) && Kept(m, s, m', s, root) && SameLeaves(m, m', root)
            && TablePath(p + [i]) && Grants(m', root, p + [i], user, write)
            && (forall x :: TablePath(x) ==> At(m', root, x) == At(m, root, x))
  {
    hide At, Grants, Leaf, Nodes, OnePlace, PlainLinks, Bounded, Permits;
    var t := At(m, root, p);
    var e := Widened(m[t][i], user, write);
    var m' := SetEntry(m, t, i, e);
    NextAt(m, root, p, i);
    NodeAt(m, root, p);
    Widen(m, root, p, i, e);
    NextGrants(m', root, p, i, user, write);
  }

  lemma DescendAbsent(m: Mem, s: set<nat>, first: nat, root: nat, p: Path, i: nat, f: nat, user: bool, write: bool)
    requires Space(m, s, first, root) && TablePath(p) && Inner(p, i) && 0 <= At(m, root, p) < |m|
    requires !m[At(m, root, p)][i].present && Grants(m, root, p, user, write)
    requires f < |m| && f !in s && first <= f * PAGE
    ensures var m' := Attached(m, At(m, root, p), i, f, Link(f, user, write));
            && Space(m', s + {f}, first, root) && Kept(m, s, m', s + {f}, root) && SameLeaves(m, m', root)
            && TablePath(p + [i]) && Grants(m', root, p + [i], user, write)
            && (forall x :: TablePath(x) ==> At(m', root, x) == if x == p + [i] then f else At(m, root, x))
  {
    hide At, Grants, Leaf, Nodes, OnePlace, PlainLinks, Bounded, Permits;
    var t := At(m, root, p);
    var e := Link(f, user, write);
    var m' := Attached(m, t, i, f, e);
    NodeAt(m, root, p);
    Attach(m, root, p, i, f, e);
    forall x | TablePath(x)
      ensures At(m', root, x) == if x == p + [i] then f else At(m, root, x)
    {
      AttachAt(m, root, p, i, f, e, x);
    }
    NextGrants(m', root, p, i, user, write);
  }

  // ------------------------------------------------------------- the kernel

  /** Missing tables on the way to a page. */
  ghost function Missing(m: Mem, root: nat, q: Path): nat
    requires IsPath(q) && |q| == 4
  {
    Gap(m, root, q[..1]) + Gap(m, root, q[..2]) + Gap(m, root, q[..3])
  }

  ghost function Gap(m: Mem, root: nat, p: Path): nat
    requires IsPath(p)
  {
    if At(m, root, p) < 0 then 1 else 0
  }

  ghost function FreeFrames(total: nat, s: set<nat>): nat
  {
    |Below(total) - s|
  }

  lemma OneFrameLess(total: nat, s: set<nat>, f: nat)
    requires f < total && f !in s
    ensures FreeFrames(total, s + {f}) == FreeFrames(total, s) - 1
  {
    assert f in Below(total);
    assert Below(total) - s == (Below(total) - (s + {f})) + {f};
  }

  lemma NoneFree(total: nat, s: set<nat>)
    ensures FreeFrames(total, s) == 0 <==> Below(total) <= s
  {
    var free := Below(total) - s;
    if f: nat :| f in free {
      assert |free| == |free - {f}| + 1;
    } else {
      assert free == {};
      forall f | f in Below(total) ensures f in s { assert f !in free; }
    }
  }

  /** The tables that a mapping has to make: none below the first missing one is there. */
  lemma MissingMeans(m: Mem, root: nat, va: nat)
    requires va < LOWER_END && Bounded(m, root)
    ensures IsPath(PathOf(va)) && root < |m|
    ensures
      var n, a := Missing(m, root, PathOf(va)), m[root][va / 0x80_0000_0000 % 512];
      if !a.present then n == 3
      else
        && a.frame < |m|
        && var b := m[a.frame][va / 0x4000_0000 % 512];
           if !b.present then n == 2
           else
             && b.frame < |m|
             && var c := m[b.frame][va / 0x20_0000 % 512];
                n == if !c.present then 1 else 0
  {
    hide At, Bounded;
    PathOfLower(va);
    Levels(m, root, PathOf(va));
  }

  /** What vmm_map_page asks for: a lower-half address and a frame, both page
      aligned, a page that is not mapped, and a frame for each missing table. */
  ghost predicate CanMap(m: Mem, s: set<nat>, root: nat, va: nat, phys: nat)
  {
    && va < LOWER_END && va % PAGE == 0 && phys % PAGE == 0 && !Translation(m, root, va).present
    && (PathOfLower(va); Missing(m, root, PathOf(va)) <= FreeFrames(|m|, s))
  }

  /** The page of `va` translates through `e` if `ok`; every other page as before. */
  ghost predicate Sets(m: Mem, m': Mem, root: nat, va: nat, ok: bool, e: Pte)
  {
    forall vb: nat :: vb < LOWER_END ==>
      Translation(m', root, vb) == if ok && vb / PAGE == va / PAGE then e else Translation(m, root, vb)
  }

  class Vmm {
    const mem: array<Table>
    const pmm: Pmm.Allocator

    ghost predicate Valid()
      reads this, pmm, pmm.bitmap
    {
      pmm.Valid() && pmm.Reserved() && mem.Length == pmm.totalFrames && 0 < mem.Length && 0 < pmm.FirstUsable()
    }

    /** Physical memory and its allocator after boot. */
    constructor (memory: array<Table>, allocator: Pmm.Allocator)
      requires allocator.Valid() && allocator.Reserved() && 0 < allocator.FirstUsable()
      requires memory.Length == allocator.totalFrames && 0 < memory.Length
      ensures Valid() && mem == memory && pmm == allocator
    {
      mem, pmm := memory, allocator;
    }

    ghost function M(): (m: Mem)
      reads mem
      ensures |m| == mem.Length
    {
      mem[..]
    }

    ghost function S(): set<nat>
      reads pmm, pmm.bitmap
    {
      pmm.Set()
    }

    ghost predicate Owns(root: nat)
      reads mem, pmm, pmm.bitmap
    {
      Space(M(), S(), pmm.FirstUsable(), root)
    }

    /** pmm_alloc_page followed by clearing the frame: a frame nobody holds, or 0. */
    method AllocTable() returns (f: nat)
      requires Valid()
      modifies mem, pmm`usedFrames, pmm.bitmap
      ensures Valid() && pmm.FirstUsable() == old(pmm.FirstUsable())
      ensures old(pmm.Counted()) ==> pmm.Counted()
      ensures f == 0 <==> Below(mem.Length) <= old(S())
      ensures f == 0 ==> M() == old(M()) && S() == old(S())
      ensures f != 0 ==> f < mem.Length && f !in old(S()) && pmm.FirstUsable() <= f * PAGE
      ensures f != 0 ==> M() == old(M())[f := EmptyTable()] && S() == old(S()) + {f}
    {
      hide Pmm.BitsOf, Below, Pmm.Allocator.Counted;
      ghost var was := S();
      var phys := pmm.AllocPage();
      if phys == 0 {
        assert 0 * PAGE < pmm.FirstUsable() && 0 in was;
        return 0;
      }
      f := phys / PAGE;
      Pmm.NewFrameUsable(pmm, was, phys);
      for i := 0 to 512
        modifies mem
        invariant forall g :: 0 <= g < mem.Length && g != f ==> mem[g] == old(mem[g])
        invariant forall j :: 0 <= j < i ==> mem[f][j] == ABSENT
      {
        mem[f] := mem[f][i := ABSENT];
      }
      assert mem[f] == EmptyTable();
      assert M() == old(M())[f := EmptyTable()];
    }

    /** get_next_level: the frame of the table that entry `i` of table `t` leads
        to, or -1. A present entry gains the rights asked for. An absent one gets
        a new empty table when `allocate` is set and a frame is free. */
    method GetNextLevel(t: nat, i: nat, allocate: bool, user: bool, write: bool) returns (next: int)
      requires Valid() && t < mem.Length && i < ENTRIES
      modifies mem, pmm`usedFrames, pmm.bitmap
      ensures Valid() && (old(pmm.Counted()) ==> pmm.Counted()) && pmm.FirstUsable() == old(pmm.FirstUsable())
      ensures var e := old(mem[t][i]);
              if e.present then
                S() == old(S()) && if e.huge then next == -1 && M() == old(M())
                else next == e.frame && M() == SetEntry(old(M()), t, i, Widened(e, user, write))
                     && mem[t][i] == Pte(true, e.writable || write, e.user || user, false, e.noExec, e.frame)
              else if !allocate || Below(mem.Length) <= old(S()) then
                next == -1 && S() == old(S()) && M() == old(M())
              else
                && 0 < next < mem.Length && next !in old(S()) && pmm.FirstUsable() <= next * PAGE
                && S() == old(S()) + {next} && M() == Attached(old(M()), t, i, next, Link(next, user, write))
                && mem[t][i] == Pte(true, write, user, false, false, next)
    {
      hide Pmm.BitsOf, Below, Pmm.Allocator.Counted;
      var entry := mem[t][i];
      if entry.present {
        if entry.huge { return -1; }
        if write && !entry.writable { mem[t] := mem[t][i := mem[t][i].(writable := true)]; }
        if user && !entry.user { mem[t] := mem[t][i := mem[t][i].(user := true)]; }
        assert mem[t] == old(mem[t])[i := Widened(entry, user, write)];
        assert M() == SetEntry(old(M()), t, i, Widened(entry, user, write));
        return entry.frame;
      }
      if !allocate { return -1; }
      var f := AllocTable();
      if f == 0 { return -1; }
      mem[t] := mem[t][i := Link(f, user, write)];
      assert M() == Attached(old(M()), t, i, f, Link(f, user, write));
      return f;
    }

    /** get_next_level inside an address space. `p` is the path to table `t`. */
    method Descend(ghost root: nat, ghost p: Path, t: nat, i: nat, allocate: bool, user: bool, write: bool)
      returns (next: int)
      requires Valid() && Owns(root) && TablePath(p) && Inner(p, i) && At(M(), root, p) == t
      requires Grants(M(), root, p, user, write)
      modifies mem, pmm`usedFrames, pmm.bitmap
      ensures Valid() && (old(pmm.Counted()) ==> pmm.Counted())
      ensures Owns(root) && Kept(old(M()), old(S()), M(), S(), root) && SameLeaves(old(M()), M(), root)
      ensures TablePath(p + [i]) && (!allocate && !user && !write ==> M() == old(M()) && S() == old(S()))
      ensures next < 0 <==> At(old(M()), root, p + [i]) < 0 && (!allocate || FreeFrames(mem.Length, old(S())) == 0)
      ensures next >= 0 ==>
                next < mem.Length && At(M(), root, p + [i]) == next && Grants(M(), root, p + [i], user, write)
      ensures forall x :: TablePath(x) && x != p + [i] ==> At(M(), root, x) == At(old(M()), root, x)
      ensures FreeFrames(mem.Length, S()) ==
                FreeFrames(mem.Length, old(S())) - if next >= 0 then Gap(old(M()), root, p + [i]) else 0
      ensures next < 0 ==> At(M(), root, p + [i]) < 0
    {
      hide At, Grants, Leaf, Nodes, OnePlace, PlainLinks, Permits, Bounded, Kept, SameLeaves, Space;
      hide Pmm.BitsOf, Below, Pmm.Allocator.Counted, FreeFrames;
      ghost var m, s, first := M(), S(), pmm.FirstUsable();
      SpaceBound(m, s, first, root, p);
      NextAt(m, root, p, i);
      EntrySmall(m, s, first, root, p, i);
      NoneFree(mem.Length, s);
      next := GetNextLevel(t, i, allocate, user, write);
      if m[t][i].present {
        DescendPresent(m, s, first, root, p, i, user, write);
        SpaceBound(m, s, first, root, p + [i]);
        SameEntry(m, t, i);
      } else if next >= 0 {
        DescendAbsent(m, s, first, root, p, i, next, user, write);
        OneFrameLess(mem.Length, s, next);
      } else {
        NothingChanged(m, s, root);
      }
    }

    /** The walk shared by vmm_map_page and vmm_unmap_page: the frame of the page
        table for `q`, or -1. */
    method Walk(root: nat, a: nat, b: nat, c: nat, ghost q: Path, allocate: bool, user: bool, write: bool)
      returns (pt: int)
      requires Valid() && Owns(root) && IsPath(q) && |q| == 4 && a == q[0] && b == q[1] && c == q[2]
      modifies mem, pmm`usedFrames, pmm.bitmap
      ensures Valid() && (old(pmm.Counted()) ==> pmm.Counted())
      ensures Owns(root) && Kept(old(M()), old(S()), M(), S(), root) && SameLeaves(old(M()), M(), root)
      ensures !allocate && !user && !write ==> M() == old(M()) && S() == old(S())
      ensures allocate ==> (pt >= 0 <==> Missing(old(M()), root, q) <= FreeFrames(mem.Length, old(S())))
      ensures !allocate ==> (pt >= 0 <==> At(old(M()), root, Up(q)) >= 0)
      ensures pt >= 0 ==> pt < mem.Length && At(M(), root, Up(q)) == pt && Grants(M(), root, Up(q), user, write)
    {
      hide At, Grants, Leaf, Nodes, OnePlace, PlainLinks, Permits, Bounded, Kept, SameLeaves, Space, Pmm.BitsOf;
      hide Pmm.Allocator.Counted, FreeFrames;
      PathSteps(q);
      ghost var m, s := M(), S();
      RootTable(m, s, pmm.FirstUsable(), root, user, write);
      Chain(m, root, q);
      var pdpt := Descend(root, [], root, a, allocate, user, write);
      if pdpt < 0 { return -1; }
      ghost var m1, s1 := M(), S();
      var pd := Descend(root, q[..1], pdpt, b, allocate, user, write);
      KeptTrans(m, s, m1, s1, M(), S(), root);
      SameLeavesTrans(m, m1, M(), root);
      if pd < 0 { return -1; }
      ghost var m2, s2 := M(), S();
      pt := Descend(root, q[..2], pd, c, allocate, user, write);
      KeptTrans(m, s, m2, s2, M(), S(), root);
      SameLeavesTrans(m, m2, M(), root);
      if pt < 0 { return -1; }
    }

    /** vmm_map_page. It fails exactly for an address or frame that is not page
        aligned, an address that is not canonical, a page already mapped, or too
        few free frames for the missing tables; a failed call changes no
        translation and a successful one changes that page's only. */
    method MapPage(root: nat, va: nat, phys: nat, user: bool, write: bool, noExec: bool) returns (ok: bool)
      requires Valid() && Owns(root) && va / LOWER_END != 0x1FFFF && phys < 0x10_0000_0000_0000
      modifies mem, pmm`usedFrames, pmm.bitmap
      ensures Valid() && (old(pmm.Counted()) ==> pmm.Counted())
      ensures Owns(root) && Kept(old(M()), old(S()), M(), S(), root)
      ensures ok <==> CanMap(old(M()), old(S()), root, va, phys)
      ensures ok <==>
        && va < 0x8000_0000_0000 && va % 4096 == 0 && phys % 4096 == 0 && !Translation(old(M()), root, va).present
        && (PathOfLower(va); Missing(old(M()), root, PathOf(va)) <= |Below(mem.Length) - old(S())|)
      ensures Sets(old(M()), M(), root, va, ok, Pte(true, write, user, false, noExec, phys / PAGE))
    {
      hide At, Grants, Leaf, Nodes, OnePlace, PlainLinks, Permits, Bounded, Kept, SameLeaves, Space, Pmm.BitsOf;
      hide Pmm.Allocator.Counted, Missing, PathOf;
      ghost var m, s := M(), S();
      NothingChanged(m, s, root);
      if !IsCanonical(va) { return false; }
      PathOfLower(va);
      if va % PAGE != 0 || phys % PAGE != 0 { return false; }
      var q := PathOf(va);
      var pt := Walk(root, q[0], q[1], q[2], q, true, user, write);
      ghost var m1, s1 := M(), S();
      LowerSame(m, m1, root);
      if pt < 0 { return false; }
      UpPath(q);
      LeafEntry(m1, root, q);
      if mem[pt][q[3]].present { return false; }
      var e := Pte(true, write, user, false, noExec, phys / PAGE);
      mem[pt] := mem[pt][q[3] := e];
      assert M() == SetEntry(m1, pt, q[3], e);
      PutLeaf(m1, s1, pmm.FirstUsable(), root, va, e);
      KeptTrans(m, s, m1, s1, M(), S(), root);
      return true;
    }

    /** vmm_unmap_page. It fails exactly for an unaligned or non-canonical address
        or a page that is not mapped, and then changes nothing; otherwise it
        removes that page's translation and keeps every table. */
    method UnmapPage(root: nat, va: nat) returns (ok: bool)
      requires Valid() && Owns(root) && va / LOWER_END != 0x1FFFF
      modifies mem, pmm`usedFrames, pmm.bitmap
      ensures Valid() && (old(pmm.Counted()) ==> pmm.Counted())
      ensures Owns(root) && Kept(old(M()), old(S()), M(), S(), root) && S() == old(S())
      ensures ok <==> va < LOWER_END && va % PAGE == 0 && Translation(old(M()), root, va).present
      ensures !ok ==> M() == old(M())
      ensures Sets(old(M()), M(), root, va, ok, ABSENT)
    {
      hide At, Grants, Leaf, Nodes, OnePlace, PlainLinks, Permits, Bounded, Kept, SameLeaves, Space, Pmm.BitsOf;
      hide Pmm.Allocator.Counted, FreeFrames, Missing, PathOf;
      ghost var m, s := M(), S();
      NothingChanged(m, s, root);
      if !IsCanonical(va) { return false; }
      PathOfLower(va);
      if va % PAGE != 0 { return false; }
      var q := PathOf(va);
      UpPath(q);
      NoTableNoLeaf(m, root, q);
      var pt := Walk(root, q[0], q[1], q[2], q, false, false, false);
      if pt < 0 { return false; }
      LeafEntry(m, root, q);
      if !mem[pt][q[3]].present { return false; }
      mem[pt] := mem[pt][q[3] := ABSENT];
      assert M() == SetEntry(m, pt, q[3], ABSENT);
      PutLeaf(m, s, pmm.FirstUsable(), root, va, ABSENT);
      return true;
    }

    /** vmm_create_address_space: the new PML4 frame, or 0 when no frame is free.
        The lower half is empty, the upper half is the kernel's. */
    method CreateAddressSpace(kernel: nat) returns (root: nat)
      requires Valid() && kernel < mem.Length && kernel in S()
      modifies mem, pmm`usedFrames, pmm.bitmap
      ensures Valid() && (old(pmm.Counted()) ==> pmm.Counted())
      ensures root == 0 <==> Below(mem.Length) <= old(S())
      ensures root == 0 ==> M() == old(M()) && S() == old(S())
      ensures root != 0 ==> Owns(root) && Nodes(M(), root) == {root} && root !in old(S()) && S() == old(S()) + {root}
      ensures root != 0 ==> forall va: nat :: va < LOWER_END ==> !Translation(M(), root, va).present
      ensures root != 0 ==> forall i :: LOWER_HALF <= i < ENTRIES ==> mem[root][i] == mem[kernel][i]
      ensures forall f :: 0 <= f < mem.Length && f != root ==> mem[f] == old(mem[f])
    {
      hide Pmm.BitsOf, Below, Pmm.Allocator.Counted, Space, Translation, Nodes;
      ghost var was := S();
      var phys := pmm.AllocPage();
      if phys == 0 {
        assert 0 * PAGE < pmm.FirstUsable() && 0 in was;
        return 0;
      }
      root := phys / PAGE;
      Pmm.NewFrameUsable(pmm, was, phys);
      for i := 0 to 256
        modifies mem
        invariant forall f :: 0 <= f < mem.Length && f != root ==> mem[f] == old(mem[f])
        invariant forall j :: 0 <= j < i ==> mem[root][j] == ABSENT
      {
        mem[root] := mem[root][i := ABSENT];
      }
      for i := 256 to 512
        modifies mem
        invariant forall f :: 0 <= f < mem.Length && f != root ==> mem[f] == old(mem[f])
        invariant forall j :: 0 <= j < LOWER_HALF ==> mem[root][j] == ABSENT
        invariant forall j :: LOWER_HALF <= j < i ==> mem[root][j] == mem[kernel][j]
      {
        mem[root] := mem[root][i := mem[kernel][i]];
      }
      NewSpace(M(), S(), pmm.FirstUsable(), root);
    }

    /** free_page_table: gives back the table at `p` and every table below it,
        each exactly once, and nothing else. */
    method FreePageTable(ghost root: nat, ghost p: Path, t: nat, level: nat)
      requires Valid() && Tree(M(), root) && TablePath(p) && p != [] && level == 4 - |p| && At(M(), root, p) == t
      requires Sub(M(), root, p) <= S() && forall f :: f in Sub(M(), root, p) ==> pmm.FirstUsable() <= f * PAGE
      modifies pmm`usedFrames, pmm.bitmap
      ensures Valid() && (old(pmm.Counted()) ==> pmm.Counted()) && S() == old(S()) - Sub(M(), root, p)
      decreases level
    {
      hide Pmm.BitsOf, Pmm.Allocator.Counted, At, OnePlace, PlainLinks, Bounded, Sub, SubTo;
      ghost var m := M();
      NodeBound(m, root, p);
      Pmm.FreeBound(pmm, t * PAGE);
      if level == 1 {
        SubBottom(m, root, p);
        Pmm.SetInAll(pmm, t);
      pmm.FreePage(t * PAGE);
        return;
      }
      SubToZero(m, root, p);
      SubWhole(m, root, p, 512);
      FreeEntries(root, p, t, level, 512);
      Pmm.SetInAll(pmm, t);
      pmm.FreePage(t * PAGE);
    }

    /** The loop over the first `n` entries of the table at `p`. */
    method FreeEntries(ghost root: nat, ghost p: Path, t: nat, level: nat, n: nat)
      requires Valid() && Tree(M(), root) && TablePath(p) && |p| <= 2 && level == 4 - |p| && At(M(), root, p) == t
      requires n == if p == [] then LOWER_HALF else ENTRIES
      requires SubTo(M(), root, p, n) <= S()
      requires forall f :: f in SubTo(M(), root, p, n) ==> pmm.FirstUsable() <= f * PAGE
      modifies pmm`usedFrames, pmm.bitmap
      ensures Valid() && (old(pmm.Counted()) ==> pmm.Counted()) && S() == old(S()) - SubTo(M(), root, p, n)
      decreases level, 0
    {
      hide Pmm.BitsOf, Pmm.Allocator.Counted, At, OnePlace, PlainLinks, Bounded, Sub, SubTo;
      ghost var m := M();
      NodeBound(m, root, p);
      SubToZero(m, root, p);
      for i := 0 to n
        invariant Valid() && (old(pmm.Counted()) ==> pmm.Counted()) && M() == m
        invariant S() == old(S()) - SubTo(m, root, p, i)
      {
        SubToNext(m, root, p, i);
        SubToMono(m, root, p, i + 1, n);
        NextAt(m, root, p, i);
        HugeEntry(m, root, p, i);
        if mem[t][i].present && !mem[t][i].huge {
          FreePageTable(root, p + [i], mem[t][i].frame, level - 1);
        } else {
          SubDead(m, root, p + [i]);
        }
      }
    }

    /** vmm_destroy_address_space: every table of the lower half, the PML4 among
        them, is given back; no other frame is, and memory is not written. */
    method DestroyAddressSpace(root: nat)
      requires Valid() && (root != 0 ==> Owns(root))
      modifies pmm`usedFrames, pmm.bitmap
      ensures Valid() && (old(pmm.Counted()) ==> pmm.Counted())
      ensures S() == if root == 0 then old(S()) else old(S()) - Nodes(M(), root)
    {
      hide Pmm.BitsOf, Pmm.Allocator.Counted, At, OnePlace, PlainLinks, Bounded, Permits, Sub, SubTo, Nodes;
      if root == 0 { return; }
      ghost var m := M();
      RootTable(m, S(), pmm.FirstUsable(), root, false, false);
      SubRoot(m, root);
      SubWhole(m, root, [], 256);
      FreeEntries(root, [], root, 4, 256);
      Pmm.FreeBound(pmm, root * PAGE);
      Pmm.SetInAll(pmm, root);
      pmm.FreePage(root * PAGE);
    }

    /** vmm_get_phys: the address the processor would reach, and nothing where it would
        fault or where a 1 GiB page maps the address. */
    method GetPhys(root: nat, va: nat) returns (ok: bool, phys: nat)
      requires Valid() && va < WORD && (IsCanonical(va) ==> Stays(M(), root, va, 3))
      ensures 0x8000_0000_0000 <= va < 0xFFFF_8000_0000_0000 ==> !ok
      ensures ok <==> IsCanonical(va) && Walked(M(), root, va, 3).Hit? && Walked(M(), root, va, 3).level != 2
      ensures ok ==> phys == Walked(M(), root, va, 3).phys
    {
      CanonicalMeans(va);
      hide Stays, Walked;
      if !IsCanonical(va) { return false, 0; }
      var q := PathOf(va);
      Down(M(), root, va, 3);
      var pml4e := mem[root][q[0]];
      if !pml4e.present { return false, 0; }
      Down(M(), pml4e.frame, va, 2);
      var pdpte := mem[pml4e.frame][q[1]];
      if !pdpte.present { return false, 0; }
      if pdpte.huge { return false, 0; }
      Down(M(), pdpte.frame, va, 1);
      var pde := mem[pdpte.frame][q[2]];
      if !pde.present { return false, 0; }
      if pde.huge { return true, pde.frame * PAGE + va % 0x20_0000; }
      Down(M(), pde.frame, va, 0);
      var pte := mem[pde.frame][q[3]];
      if !pte.present { return false, 0; }
      return true, pte.frame * PAGE + va % PAGE;
    }

    /** vmm_is_user_readable and, with `write`, vmm_is_user_writable: whether the
        processor would let user code reach the address. */
    method IsUserAccessible(root: nat, va: nat, write: bool) returns (r: bool)
      requires Valid() && va < WORD && (IsCanonical(va) ==> Stays(M(), root, va, 3))
      ensures 0x8000_0000_0000 <= va < 0xFFFF_8000_0000_0000 ==> !r
      ensures r <==> IsCanonical(va) && Lets(Walked(M(), root, va, 3), write)
      ensures IsCanonical(va) ==>
                (r <==> var w := Walked(M(), root, va, 3); w.Hit? && w.user && (write ==> w.writable))
    {
      CanonicalMeans(va);
      hide Stays, Walked;
      if !IsCanonical(va) { return false; }
      var q := PathOf(va);
      Down(M(), root, va, 3);
      var pml4e := mem[root][q[0]];
      if !Allows(pml4e, write) { return false; }
      Down(M(), pml4e.frame, va, 2);
      var pdpte := mem[pml4e.frame][q[1]];
      if !Allows(pdpte, write) { return false; }
      if pdpte.huge { return true; }
      Down(M(), pdpte.frame, va, 1);
      var pde := mem[pdpte.frame][q[2]];
      if !Allows(pde, write) { return false; }
      if pde.huge { return true; }
      Down(M(), pde.frame, va, 0);
      var pte := mem[pde.frame][q[3]];
      return Allows(pte, write);
    }

    /** user_range_readable and user_range_writable: true exactly for the empty
        range and for ranges that lie below 2^47, do not wrap around, and have
        every byte on a page mapped for the user (and writable). */
    method UserRangeAccessible(root: nat, addr: nat, len: nat, write: bool) returns (r: bool)
      requires Valid() && Owns(root) && addr < WORD && len < WORD
      ensures r <==>
                || len == 0
                || (addr + len <= 0x8000_0000_0000
                    && forall va: nat :: addr <= va < addr + len ==>
                         var e := Translation(M(), root, va);
                         e.present && e.user && (write ==> e.writable))
    {
      hide At, Grants, Nodes, OnePlace, PlainLinks, Permits, Bounded, Translation, Walked, Stays, Lets, Space;
      if len == 0 { return true; }
      var end := (addr + len) % WORD;
      if end < addr { return false; }
      if end > LOWER_END { return false; }
      var va := addr / PAGE * PAGE;
      while va < end
        invariant va % PAGE == 0 && (va <= addr || va - PAGE < end)
        invariant forall vb: nat :: addr <= vb < end && vb < va ==> Allows(Translation(M(), root, vb), write)
        decreases end - va
      {
        SpaceAccess(M(), S(), pmm.FirstUsable(), root, va, write);
        var ok := IsUserAccessible(root, va, write);
        ghost var last := if va < addr then addr else va;
        SamePage(M(), root, va, last);
        if !ok { return false; }
        forall vb: nat | addr <= vb < end && vb < va + PAGE ensures Allows(Translation(M(), root, vb), write) {
          if vb >= va { SamePage(M(), root, va, vb); }
        }
        va := va + PAGE;
      }
      return true;
    }
  }

  // ------------------------------------------------------ tables of a subtree

  ghost predicate Under(m: Mem, root: nat, p: Path, f: nat)
  {
    exists q :: TablePath(q) && p <= q && At(m, root, q) == f
  }

  /** The frames of the table at `p` and of every table below it. */
  ghost function Sub(m: Mem, root: nat, p: Path): (r: set<nat>)
  {
    set f: nat | f < |m| && Under(m, root, p, f)
  }

  ghost predicate Through(p: Path, n: nat, q: Path)
  {
    |p| < |q| && p <= q && q[|p|] < n
  }

  ghost predicate UnderTo(m: Mem, root: nat, p: Path, n: nat, f: nat)
  {
    exists q :: TablePath(q) && Through(p, n, q) && At(m, root, q) == f
  }

  /** The frames below the first `n` entries of the table at `p`. */
  ghost function SubTo(m: Mem, root: nat, p: Path, n: nat): (r: set<nat>)
  {
    set f: nat | f < |m| && UnderTo(m, root, p, n, f)
  }

  lemma SubToZero(m: Mem, root: nat, p: Path)
    ensures SubTo(m, root, p, 0) == {}
  {
    hide At;
  }

  lemma DeadPath(m: Mem, root: nat, p: Path, q: Path)
    requires IsPath(p) && IsPath(q) && p <= q && At(m, root, p) < 0
    ensures At(m, root, q) < 0
    decreases |q|
  {
    if p == q {
    } else {
      UpPath(q);
      DeadPath(m, root, p, Up(q));
    }
  }

  lemma SubDead(m: Mem, root: nat, p: Path)
    requires TablePath(p) && At(m, root, p) < 0
    ensures Sub(m, root, p) == {}
  {
    hide At;
    forall f: nat ensures !Under(m, root, p, f) {
      if Under(m, root, p, f) {
        var q :| TablePath(q) && p <= q && At(m, root, q) == f;
        DeadPath(m, root, p, q);
      }
    }
  }

  lemma SubToNext(m: Mem, root: nat, p: Path, n: nat)
    requires OnePlace(m, root) && TablePath(p) && Inner(p, n)
    ensures SubTo(m, root, p, n + 1) == SubTo(m, root, p, n) + Sub(m, root, p + [n])
    ensures SubTo(m, root, p, n) !! Sub(m, root, p + [n])
  {
    hide At;
    forall f: nat ensures UnderTo(m, root, p, n + 1, f) <==> UnderTo(m, root, p, n, f) || Under(m, root, p + [n], f) {
      if UnderTo(m, root, p, n + 1, f) {
        var q :| TablePath(q) && Through(p, n + 1, q) && At(m, root, q) == f;
        if q[|p|] < n { assert Through(p, n, q); } else { assert p + [n] <= q; }
      }
      if UnderTo(m, root, p, n, f) {
        var q :| TablePath(q) && Through(p, n, q) && At(m, root, q) == f;
        assert Through(p, n + 1, q);
      }
      if Under(m, root, p + [n], f) {
        var q :| TablePath(q) && p + [n] <= q && At(m, root, q) == f;
        assert Through(p, n + 1, q);
      }
    }
    forall f: nat ensures !(UnderTo(m, root, p, n, f) && Under(m, root, p + [n], f)) {
    }
  }

  lemma SubToMono(m: Mem, root: nat, p: Path, k: nat, n: nat)
    requires k <= n
    ensures SubTo(m, root, p, k) <= SubTo(m, root, p, n)
  {
    hide At;
    forall f: nat | UnderTo(m, root, p, k, f) ensures UnderTo(m, root, p, n, f) {
      var q :| TablePath(q) && Through(p, k, q) && At(m, root, q) == f;
      assert Through(p, n, q);
    }
  }

  lemma HugeEntry(m: Mem, root: nat, p: Path, i: nat)
    requires PlainLinks(m, root) && TablePath(p) && Inner(p, i) && 0 <= At(m, root, p) < |m|
    ensures Plain(m[At(m, root, p)][i])
  {
    hide At;
  }

  lemma SubWhole(m: Mem, root: nat, p: Path, n: nat)
    requires OnePlace(m, root) && TablePath(p) && 0 <= At(m, root, p) < |m|
    requires n == if p == [] then LOWER_HALF else ENTRIES
    ensures Sub(m, root, p) == SubTo(m, root, p, n) + {At(m, root, p)} && At(m, root, p) !in SubTo(m, root, p, n)
  {
    hide At;
    forall f: nat ensures Under(m, root, p, f) <==> UnderTo(m, root, p, n, f) || f == At(m, root, p) {
      if Under(m, root, p, f) {
        var q :| TablePath(q) && p <= q && At(m, root, q) == f;
        if q != p { assert Through(p, n, q); }
      }
    }
  }

  lemma SubBottom(m: Mem, root: nat, p: Path)
    requires TablePath(p) && |p| == 3 && 0 <= At(m, root, p) < |m|
    ensures Sub(m, root, p) == {At(m, root, p)}
  {
    hide At;
    forall f: nat ensures Under(m, root, p, f) <==> f == At(m, root, p) {
      if Under(m, root, p, f) {
        var q :| TablePath(q) && p <= q && At(m, root, q) == f;
        assert q == p;
      }
    }
  }

  lemma SubRoot(m: Mem, root: nat)
    ensures Sub(m, root, []) == Nodes(m, root)
  {
    hide At;
    forall f: nat ensures Under(m, root, [], f) <==> IsNode(m, root, f) {
      if IsNode(m, root, f) {
        var q :| TablePath(q) && At(m, root, q) == f;
        assert [] <= q;
      }
    }
  }

  /** A PML4 whose lower half is empty is an address space of its own. */
  lemma NewSpace(m: Mem, s: set<nat>, first: nat, root: nat)
    requires root < |m| && root in s && first <= root * PAGE && forall i :: 0 <= i < LOWER_HALF ==> m[root][i] == ABSENT
    ensures Space(m, s, first, root) && Nodes(m, root) == {root}
    ensures forall va: nat :: va < LOWER_END ==> !Translation(m, root, va).present
  {
    forall p | IsPath(p) && p != [] ensures At(m, root, p) == -1 { NewAt(m, root, p); }
    assert At(m, root, []) == root && TablePath([]);
    hide At;
    forall q | IsPath(q) && |q| == 4 ensures !Leaf(m, root, q).present { UpPath(q); }
    forall va: nat | va < LOWER_END ensures !Translation(m, root, va).present { PathOfLower(va); }
    assert PlainLinks(m, root);
    assert IsNode(m, root, root);
  }

  lemma NewAt(m: Mem, root: nat, p: Path)
    requires root < |m| && (forall i :: 0 <= i < LOWER_HALF ==> m[root][i] == ABSENT) && IsPath(p) && p != []
    ensures At(m, root, p) == -1
    decreases |p|
  {
    UpPath(p);
    if |p| <= 1 {
    } else {
      NewAt(m, root, Up(p));
    }
  }

  predicate Allows(e: Pte, write: bool)
  {
    e.present && e.user && (write ==> e.writable)
  }

  /** Entry `i` of table `t` is what leads to table `p`. */
  ghost predicate Enters(m: Mem, root: nat, t: int, i: nat, p: Path)
    requires IsPath(p)
  {
    && 0 <= t < |m| && i < ENTRIES && At(m, root, p) < |m| && (PlainLinks(m, root) ==> Plain(m[t][i]))
    && At(m, root, p) == if m[t][i].present then m[t][i].frame else -1
  }

  /** The entries on the way to a page. */
  lemma Levels(m: Mem, root: nat, q: Path)
    requires Bounded(m, root) && IsPath(q) && |q| == 4
    ensures IsPath([]) && IsPath(q[..1]) && IsPath(q[..2]) && IsPath(q[..3]) && At(m, root, []) == root < |m|
    ensures Enters(m, root, root, q[0], q[..1])
    ensures At(m, root, q[..1]) >= 0 ==> Enters(m, root, At(m, root, q[..1]), q[1], q[..2])
    ensures At(m, root, q[..2]) >= 0 ==> Enters(m, root, At(m, root, q[..2]), q[2], q[..3])
    ensures At(m, root, q[..1]) < 0 ==> At(m, root, q[..2]) < 0
    ensures At(m, root, q[..2]) < 0 ==> At(m, root, q[..3]) < 0
    ensures Up(q) == q[..3] && Last(q) == q[3]
  {
    PathSteps(q);
    Chain(m, root, q);
    RootIsNode(m, root);
    assert At(m, root, []) == root;
    NextAt(m, root, [], q[0]);
    NodeBound(m, root, q[..1]);
    NodeBound(m, root, q[..2]);
    NodeBound(m, root, q[..3]);
    hide At;
    if At(m, root, q[..1]) >= 0 {
      NextAt(m, root, q[..1], q[1]);
      if At(m, root, q[..2]) >= 0 { NextAt(m, root, q[..2], q[2]); }
    }
  }

  /** On the way to a page mapped for the user every entry is a user entry, and
      likewise for writing. */
  lemma Rights(m: Mem, root: nat, q: Path)
    requires Bounded(m, root) && IsPath(q) && |q| == 4
    ensures IsPath(Up(q)) && IsPath(q[..1]) && IsPath(q[..2]) && IsPath(q[..3])
    ensures Permits(m, root) && Leaf(m, root, q).present ==>
              && Step(m, root, [], q[0], Leaf(m, root, q)) && Step(m, root, q[..1], q[1], Leaf(m, root, q))
              && Step(m, root, q[..2], q[2], Leaf(m, root, q))
  {
    PathSteps(q);
    assert Up(q[..1]) == [] && Up(q[..2]) == q[..1] && Up(q[..3]) == q[..2];
    var e := Leaf(m, root, q);
    hide At;
    if Permits(m, root) && e.present {
      assert Grants(m, root, q[..3], e.user, e.writable);
      assert Grants(m, root, q[..2], e.user, e.writable);
      assert Grants(m, root, q[..1], e.user, e.writable);
    }
  }

  ghost predicate Step(m: Mem, root: nat, p: Path, i: nat, e: Pte)
    requires IsPath(p) && i < ENTRIES
  {
    var t := At(m, root, p);
    0 <= t < |m| && (e.user ==> m[t][i].user) && (e.writable ==> m[t][i].writable)
  }

  /** In an address space the processor finds exactly the page that was mapped, with
      exactly the rights it was mapped with. */
  lemma WalkOfSpace(m: Mem, root: nat, va: nat)
    requires va < LOWER_END && Bounded(m, root) && PlainLinks(m, root)
    ensures Stays(m, root, va, 3)
    ensures var e, w := Translation(m, root, va), Walked(m, root, va, 3);
            && (w.Hit? <==> e.present)
            && (w.Hit? ==> w.phys == e.frame * PAGE + va % PAGE && w.level == 0 && w.exec == !e.noExec)
            && (Permits(m, root) && w.Hit? ==> w.user == e.user && w.writable == e.writable)
  {
    hide At, Grants, Nodes, OnePlace, PlainLinks, Permits, Bounded, PathOf, Span;
    PathOfLower(va);
    var q := PathOf(va);
    Indices(va);
    Levels(m, root, q);
    Rights(m, root, q);
    var a := m[root][q[0]];
    if a.present {
      var b := m[a.frame][q[1]];
      if b.present {
        var c := m[b.frame][q[2]];
        if c.present {
          assert Stays(m, c.frame, va, 0);
          Down(m, c.frame, va, 0);
        }
        assert Stays(m, b.frame, va, 1);
        Down(m, b.frame, va, 1);
      }
      assert Stays(m, a.frame, va, 2);
      Down(m, a.frame, va, 2);
    }
    Down(m, root, va, 3);
  }

  lemma SpaceAccess(m: Mem, s: set<nat>, first: nat, root: nat, va: nat, write: bool)
    requires Space(m, s, first, root) && va < LOWER_END
    ensures Stays(m, root, va, 3) && (Lets(Walked(m, root, va, 3), write) <==> Allows(Translation(m, root, va), write))
  {
    hide At, Nodes, OnePlace, PlainLinks, Permits, Bounded, Translation, Walked, Stays;
    WalkOfSpace(m, root, va);
  }

  lemma Indices(va: nat)
    ensures PathOf(va) == [Index(va, 3), Index(va, 2), Index(va, 1), Index(va, 0)] && Span(0) == PAGE
  {
  }

  lemma SamePage(m: Mem, root: nat, va: nat, vb: nat)
    requires va < LOWER_END && va % PAGE == 0 && va <= vb < va + PAGE
    ensures vb < LOWER_END && Translation(m, root, vb) == Translation(m, root, va)
  {
    hide PathOf, Leaf;
    PathOfPage(va, vb);
  }

  lemma SameEntry(m: Mem, t: nat, i: nat)
    requires t < |m| && i < ENTRIES
    ensures SetEntry(m, t, i, m[t][i]) == m && Widened(m[t][i], false, false) == m[t][i]
  {
    assert m[t][i := m[t][i]] == m[t];
  }

  lemma PathSteps(q: Path)
    requires IsPath(q) && |q| == 4
    ensures [] + [q[0]] == q[..1] && q[..1] + [q[1]] == q[..2] && q[..2] + [q[2]] == q[..3] && q[..3] == Up(q)
    ensures TablePath([]) && TablePath(q[..1]) && TablePath(q[..2]) && TablePath(q[..3]) && Last(q) == q[3]
    ensures q[..1] != q[..2] && q[..1] != q[..3] && q[..2] != q[..3]
    ensures Inner([], q[0]) && Inner(q[..1], q[1]) && Inner(q[..2], q[2])
  {
    assert |q[..1]| == 1 && |q[..2]| == 2 && |q[..3]| == 3;
  }

  lemma RootTable(m: Mem, s: set<nat>, first: nat, root: nat, user: bool, write: bool)
    requires Space(m, s, first, root)
    ensures root < |m| && At(m, root, []) == root && Grants(m, root, [], user, write)
  {
    RootIsNode(m, root);
  }

  /** A path that stops somewhere stops for good. */
  lemma Chain(m: Mem, root: nat, q: Path)
    requires IsPath(q) && |q| == 4
    ensures IsPath(q[..1]) && IsPath(q[..2]) && IsPath(q[..3])
    ensures At(m, root, q[..1]) < 0 ==> At(m, root, q[..2]) < 0
    ensures At(m, root, q[..2]) < 0 ==> At(m, root, q[..3]) < 0
  {
    PathSteps(q);
    assert Up(q[..2]) == q[..1] && Up(q[..3]) == q[..2];
  }

  lemma SameLeavesTrans(m: Mem, m1: Mem, m2: Mem, root: nat)
    requires SameLeaves(m, m1, root) && SameLeaves(m1, m2, root)
    ensures SameLeaves(m, m2, root)
  {
    hide Leaf;
  }

  lemma LowerSame(m: Mem, m': Mem, root: nat)
    requires SameLeaves(m, m', root)
    ensures forall vb: nat :: vb < LOWER_END ==> Translation(m', root, vb) == Translation(m, root, vb)
  {
    hide Leaf, PathOf;
    forall vb: nat | vb < LOWER_END ensures Translation(m', root, vb) == Translation(m, root, vb) { PathOfLower(vb); }
  }

  lemma LeafEntry(m: Mem, root: nat, q: Path)
    requires IsPath(q) && |q| == 4 && 0 <= At(m, root, Up(q)) < |m|
    ensures Leaf(m, root, q) == m[At(m, root, Up(q))][q[3]]
  {
  }

  lemma NoTableNoLeaf(m: Mem, root: nat, q: Path)
    requires IsPath(q) && |q| == 4
    ensures At(m, root, Up(q)) < 0 ==> !Leaf(m, root, q).present
  {
  }

  /** Writing the leaf entry of the page at `va`. */
  lemma PutLeaf(m: Mem, s: set<nat>, first: nat, root: nat, va: nat, e: Pte)
    requires va < LOWER_END && IsPath(PathOf(va)) && |PathOf(va)| == 4 && Space(m, s, first, root)
    requires 0 <= At(m, root, Up(PathOf(va))) < |m|
    requires e.present ==> Grants(m, root, Up(PathOf(va)), e.user, e.writable)
    ensures var m' := SetEntry(m, At(m, root, Up(PathOf(va))), PathOf(va)[3], e);
            && Space(m', s, first, root) && Kept(m, s, m', s, root)
            && forall vb: nat :: vb < LOWER_END ==>
                 Translation(m', root, vb) == if vb / PAGE == va / PAGE then e else Translation(m, root, vb)
  {
    hide At, Grants, Leaf, Nodes, OnePlace, PlainLinks, Permits, Bounded, PathOf;
    var q := PathOf(va);
    UpPath(q);
    NodeAt(m, root, Up(q));
    LeafSet(m, root, q, e);
    var m' := SetEntry(m, At(m, root, Up(q)), q[3], e);
    forall vb: nat | vb < LOWER_END
      ensures Translation(m', root, vb) == if vb / PAGE == va / PAGE then e else Translation(m, root, vb)
    {
      PathOfLower(vb);
      PathOfPage(va, vb);
    }
  }

  lemma SpaceBound(m: Mem, s: set<nat>, first: nat, root: nat, p: Path)
    requires Space(m, s, first, root) && TablePath(p)
    ensures At(m, root, p) < |m|
  {
  }

  lemma EntrySmall(m: Mem, s: set<nat>, first: nat, root: nat, p: Path, i: nat)
    requires Space(m, s, first, root) && TablePath(p) && Inner(p, i) && 0 <= At(m, root, p) < |m|
    ensures Plain(m[At(m, root, p)][i])
  {
    hide At;
  }

  lemma NothingChanged(m: Mem, s: set<nat>, root: nat)
    ensures Kept(m, s, m, s, root) && SameLeaves(m, m, root)
  {
  }

  // -------------------------------------------------------------- whole runs

  datatype Op = Map(va: nat, phys: nat, user: bool, write: bool, noExec: bool) | Unmap(va: nat)

  predicate Lower(op: Op)
  {
    op.va / LOWER_END != 0x1FFFF && (op.Map? ==> op.phys < 0x10_0000_0000_0000)
  }

  /** What the page of `va` maps to after `ops` with results `oks`: the last
      successful operation on that page decides. */
  function Final(ops: seq<Op>, oks: seq<bool>, va: nat): Pte
    requires |ops| == |oks|
  {
    if ops == [] then ABSENT
    else
      var n := |ops| - 1;
      var op := ops[n];
      if oks[n] && op.va / PAGE == va / PAGE then
        match op
        case Map(_, phys, user, write, noExec) => Pte(true, write, user, false, noExec, phys / PAGE)
        case Unmap(_) => ABSENT
      else Final(ops[..n], oks[..n], va)
  }

  /** Memory and the frames in use. */
  datatype View = View(m: Mem, s: set<nat>)

  /** What one call does to them. */
  ghost predicate Did(v: View, root: nat, op: Op, ok: bool, v': View)
  {
    && Kept(v.m, v.s, v'.m, v'.s, root)
    && match op
       case Map(va, phys, user, write, noExec) =>
         && (ok <==> CanMap(v.m, v.s, root, va, phys))
         && Sets(v.m, v'.m, root, va, ok, Pte(true, write, user, false, noExec, phys / PAGE))
       case Unmap(va) =>
         && (ok <==> va < LOWER_END && va % PAGE == 0 && Translation(v.m, root, va).present) && v'.s == v.s
         && (!ok ==> v'.m == v.m) && Sets(v.m, v'.m, root, va, ok, ABSENT)
  }

  ghost predicate Traced(trace: seq<View>, root: nat, ops: seq<Op>, oks: seq<bool>)
  {
    && |trace| == |ops| + 1 && |oks| == |ops|
    && forall i :: 0 <= i < |ops| ==> Did(trace[i], root, ops[i], oks[i], trace[i + 1])
  }

  lemma TraceMore(trace: seq<View>, root: nat, ops: seq<Op>, oks: seq<bool>, n: nat, ok: bool, v: View)
    requires n < |ops| && Traced(trace, root, ops[..n], oks) && Did(trace[n], root, ops[n], ok, v)
    ensures Traced(trace + [v], root, ops[..n + 1], oks + [ok])
  {
    hide Did;
    var t, o := trace + [v], oks + [ok];
    forall i | 0 <= i < n + 1 ensures Did(t[i], root, ops[..n + 1][i], o[i], t[i + 1]) {
      if i < n { assert Did(trace[i], root, ops[..n][i], oks[i], trace[i + 1]); }
    }
  }

  /** The flat map that the calls so far describe. */
  ghost predicate Flat(m: Mem, root: nat, ops: seq<Op>, oks: seq<bool>)
    requires |ops| == |oks|
  {
    forall va: nat :: va < LOWER_END ==> Agrees(Translation(m, root, va), Final(ops, oks, va))
  }

  lemma FlatMore(m: Mem, m': Mem, root: nat, ops: seq<Op>, oks: seq<bool>, n: nat, ok: bool)
    requires n < |ops| && |oks| == n && Flat(m, root, ops[..n], oks)
    requires match ops[n]
             case Map(va, phys, user, write, noExec) =>
               Sets(m, m', root, va, ok, Pte(true, write, user, false, noExec, phys / PAGE))
             case Unmap(va) => Sets(m, m', root, va, ok, ABSENT)
    ensures Flat(m', root, ops[..n + 1], oks + [ok])
  {
    hide Translation;
    assert ops[..n + 1][..n] == ops[..n] && (oks + [ok])[..n] == oks;
  }

  /** Any run of maps and unmaps on a new address space follows the calls one by
      one, and refines a flat map from pages to entries. */
  method Run(v: Vmm, root: nat, ops: seq<Op>) returns (oks: seq<bool>, ghost trace: seq<View>)
    requires v.Valid() && v.Owns(root) && forall i :: 0 <= i < |ops| ==> Lower(ops[i])
    requires forall va: nat :: va < LOWER_END ==> !Translation(v.M(), root, va).present
    modifies v.mem, v.pmm`usedFrames, v.pmm.bitmap
    ensures v.Valid() && v.Owns(root) && (old(v.pmm.Counted()) ==> v.pmm.Counted())
    ensures Kept(old(v.M()), old(v.S()), v.M(), v.S(), root) && |oks| == |ops| && Flat(v.M(), root, ops, oks)
    ensures Traced(trace, root, ops, oks) && trace[0] == View(old(v.M()), old(v.S()))
    ensures trace[|ops|] == View(v.M(), v.S())
  {
    hide Space, Kept, Translation, Vmm.Valid, Vmm.M, Vmm.S, Pmm.Allocator.Counted, Pmm.BitsOf, Pmm.Allocator.Set, Flat;
    hide Traced, CanMap, Sets;
    oks := [];
    ghost var m, s := v.M(), v.S();
    trace := [View(m, s)];
    StartFlat(m, root, ops, trace);
    NothingChanged(m, s, root);
    for i := 0 to |ops|
      invariant v.Valid() && v.Owns(root) && (old(v.pmm.Counted()) ==> v.pmm.Counted())
      invariant Kept(m, s, v.M(), v.S(), root)
      invariant |oks| == i && Flat(v.M(), root, ops[..i], oks)
      invariant |trace| == i + 1 && Traced(trace, root, ops[..i], oks) && trace[0] == View(m, s)
      invariant trace[i] == View(v.M(), v.S())
    {
      ghost var m1, s1 := v.M(), v.S();
      assert Lower(ops[i]);
      var ok;
      match ops[i] {
        case Map(va, phys, user, write, noExec) => ok := v.MapPage(root, va, phys, user, write, noExec);
        case Unmap(va) => ok := v.UnmapPage(root, va);
      }
      KeptTrans(m, s, m1, s1, v.M(), v.S(), root);
      FlatMore(m1, v.M(), root, ops, oks, i, ok);
      TraceMore(trace, root, ops, oks, i, ok, View(v.M(), v.S()));
      oks, trace := oks + [ok], trace + [View(v.M(), v.S())];
    }
    assert ops[..|ops|] == ops;
  }

  lemma StartFlat(m: Mem, root: nat, ops: seq<Op>, trace: seq<View>)
    requires (forall va: nat :: va < LOWER_END ==> !Translation(m, root, va).present) && |trace| == 1
    ensures Flat(m, root, ops[..0], []) && Traced(trace, root, ops[..0], [])
  {
  }

  /** Equal entries, or both absent. */
  predicate Agrees(e: Pte, f: Pte)
  {
    if f.present then e == f else !e.present
  }

  /** Create, any maps and unmaps, destroy: exactly the frames in use before are
      in use after, and the memory of each of them is what it was. In particular
      the tables all come back, no mapped data frame is given back with them, and
      the kernel half is untouched. */
  method Lifecycle(v: Vmm, kernel: nat, ops: seq<Op>)
    requires v.Valid() && kernel < v.mem.Length && kernel in v.S() && forall i :: 0 <= i < |ops| ==> Lower(ops[i])
    modifies v.mem, v.pmm`usedFrames, v.pmm.bitmap
    ensures v.Valid() && v.S() == old(v.S()) && (old(v.pmm.Counted()) ==> v.pmm.Counted())
    ensures forall f :: f in old(v.S()) && f < v.mem.Length ==> v.M()[f] == old(v.M())[f]
  {
    hide Space, Translation, Pmm.Allocator.Counted, Pmm.BitsOf, Below, Nodes, Pmm.Allocator.Set, Flat, Traced;
    ghost var s := v.S();
    var root := v.CreateAddressSpace(kernel);
    if root == 0 { return; }
    assert v.S() - {root} == s;
    var oks, trace := Run(v, root, ops);
    ghost var grown, nodes := v.S(), Nodes(v.M(), root);
    v.DestroyAddressSpace(root);
    assert v.S() == grown - nodes == s;
  }
}
