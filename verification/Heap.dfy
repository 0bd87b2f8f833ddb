/** kernel/memory/heap.c: first-fit allocation over a doubly linked list of block
    headers, with splitting, two-sided coalescing and growth that can stop halfway. */
module Heap {
  import opened Blocks
  import opened HeapList

  const MAGIC: nat := 0xC001_BEEF_DEAD_BEEF

  // -------------------------------------------------- machine-word arithmetic

  /** align_up on 64-bit words, to 16 bytes and to pages. */
  function AlignBytes(x: nat): nat
  {
    (x + 15) % WORD / 16 * 16
  }

  function AlignPages(x: nat): nat
  {
    (x + 4095) % WORD / 4096 * 4096
  }

  function Extent(size: nat): nat
  {
    (HEADER + AlignBytes(size)) % WORD
  }

  /** How far one pass of kmalloc wants the heap to grow. */
  function Need(size: nat): nat
  {
    AlignPages(Extent(size))
  }

  /** Requests whose growth wraps to nothing. */
  predicate Vanishes(size: nat)
  {
    WORD - 4144 < size <= WORD - 48
  }

  /** Requests that ask for a page at a time and can never be met. */
  predicate Drains(size: nat)
  {
    WORD - 48 < size <= WORD - 16
  }

  /** The rounded request covers the request exactly for sizes up to 2^64 - 16. */
  lemma AlignedEnough(size: nat)
    requires size < WORD
    ensures AlignBytes(size) >= size <==> size <= WORD - 16
    ensures size > WORD - 16 ==> AlignBytes(size) == 0
  {
  }

  /** The four kinds of requests: growth covers a header and the rounded request
      exactly for sizes up to 2^64 - 4144 and, rounded to nothing, above 2^64 - 16;
      in between it wraps to no page or to one page that is too small. */
  lemma Kinds(size: nat)
    requires size < WORD
    ensures Need(size) % PAGE == 0 && Need(size) < WORD
    ensures Need(size) >= HEADER + AlignBytes(size) <==> size <= WORD - 4144 || size > WORD - 16
    ensures Need(size) == 0 <==> Vanishes(size)
    ensures Drains(size) ==> Need(size) == PAGE && AlignBytes(size) >= WORD - 32
    ensures size > WORD - 16 ==> Need(size) == PAGE
  {
    if size <= WORD - 4144 {
      RoundBytes(size);
      assert Extent(size) == HEADER + AlignBytes(size);
      RoundPages(Extent(size));
    } else if size <= WORD - 48 {
      RoundBytes(size);
    } else if size <= WORD - 16 {
      RoundBytes(size);
    }
  }

  lemma RoundBytes(x: nat)
    requires x + 15 < WORD
    ensures x <= AlignBytes(x) < x + 16 && AlignBytes(x) % 16 == 0
  {
  }

  lemma RoundPages(x: nat)
    requires x + 4095 < WORD
    ensures x <= AlignPages(x) < x + 4096 && AlignPages(x) % 4096 == 0
  {
  }

  lemma WholePages(x: nat)
    ensures AlignPages(x) % PAGE == 0 && AlignPages(x) < WORD
  {
  }

  /** Where the reserved range ends, and the first page above the heap that is
      already mapped, which no growth can pass. */
  datatype Limits = Limits(reserved: nat, ceiling: nat)

  /** The test of the reserved end, on machine words. */
  predicate Admits(l: Limits, end: nat, need: nat)
  {
    (end + need) % WORD <= l.reserved
  }

  /** The test means what it says exactly when the sum does not wrap, or wraps to
      more than the reserved end. */
  lemma ReservedTest(l: Limits, end: nat, need: nat)
    requires end < WORD && need < WORD && l.reserved < WORD
    ensures (Admits(l, end, need) <==> end + need <= l.reserved)
            <==> end + need < WORD || end + need - WORD > l.reserved
  {
  }

  /** How many pages can be had: `granted` frames, and no page from `ceiling` on. */
  function Room(l: Limits, end: nat, granted: nat): nat
    requires end <= l.ceiling
  {
    if granted < (l.ceiling - end) / PAGE then granted else (l.ceiling - end) / PAGE
  }

  /** All of `need` can be had. */
  predicate Expands(l: Limits, end: nat, need: nat, granted: nat)
    requires end <= l.ceiling
  {
    Admits(l, end, need) && need / PAGE <= Room(l, end, granted)
  }

  /** The pages that a growth by `need` gains, whether or not all can be had. */
  function Gained(l: Limits, end: nat, need: nat, granted: nat): nat
    requires end <= l.ceiling
  {
    if !Admits(l, end, need) then 0
    else if need / PAGE <= Room(l, end, granted) then need / PAGE else Room(l, end, granted)
  }

  // ----------------------------------------------------------------- headers

  datatype Header = Header(magic: nat, size: nat, used: bool, next: nat, prev: nat)

  type Memory = map<nat, Header>

  function HeaderOf(bs: seq<Block>, i: int): Header
    requires 0 <= i < |bs|
  {
    Header(MAGIC, bs[i].size, bs[i].used, AddrAt(bs, i + 1), AddrAt(bs, i - 1))
  }

  ghost predicate Has(m: Memory, bs: seq<Block>, i: int)
    requires 0 <= i < |bs|
  {
    bs[i].addr in m && m[bs[i].addr] == HeaderOf(bs, i)
  }

  /** The headers in memory are those of the list. */
  ghost predicate Linked(m: Memory, bs: seq<Block>)
  {
    forall i :: 0 <= i < |bs| ==> Has(m, bs, i)
  }

  function SetPrev(m: Memory, a: nat, p: nat): Memory
    requires a != 0 ==> a in m
  {
    if a != 0 then m[a := m[a].(prev := p)] else m
  }

  /** The header writes of a split. */
  function SplitWrites(m: Memory, curr: nat, n: nat): Memory
    requires curr in m && (m[curr].next != 0 ==> m[curr].next in m) && m[curr].size >= n + HEADER
  {
    var at := curr + HEADER + n;
    var m1 := m[at := Header(MAGIC, m[curr].size - n - HEADER, false, m[curr].next, curr)];
    var m2 := SetPrev(m1, m[curr].next, at);
    m2[curr := m2[curr].(next := at, size := n)]
  }

  function UseWrite(m: Memory, curr: nat): Memory
    requires curr in m
  {
    m[curr := m[curr].(used := true)]
  }

  lemma SplitLinked(m: Memory, bs: seq<Block>, lo: nat, hi: nat, i: nat, n: nat)
    requires Linked(m, bs) && Tiled(bs, lo, hi) && 0 < lo && i < |bs| && Splits(bs[i], n)
    ensures Has(m, bs, i) && (m[bs[i].addr].next != 0 ==> m[bs[i].addr].next in m)
    ensures Linked(UseWrite(SplitWrites(m, bs[i].addr, n), bs[i].addr), Take(bs, i, n))
  {
    assert Has(m, bs, i);
    if i + 1 < |bs| { assert Has(m, bs, i + 1); assert Adjacent(bs, i); Inside(bs, lo, hi, i + 1); }
    var r := Take(bs, i, n);
    var m' := UseWrite(SplitWrites(m, bs[i].addr, n), bs[i].addr);
    forall j | 0 <= j < |r| ensures Has(m', r, j) {
      if j < i { SplitBefore(m, bs, lo, hi, i, n, j); } else if j > i + 1 { SplitAfter(m, bs, lo, hi, i, n, j - 1); }
    }
  }

  lemma SplitBefore(m: Memory, bs: seq<Block>, lo: nat, hi: nat, i: nat, n: nat, j: nat)
    requires Linked(m, bs) && Tiled(bs, lo, hi) && j < i < |bs| && Splits(bs[i], n)
    requires Has(m, bs, i) && (m[bs[i].addr].next != 0 ==> m[bs[i].addr].next in m)
    ensures Has(UseWrite(SplitWrites(m, bs[i].addr, n), bs[i].addr), Take(bs, i, n), j)
  {
    assert Has(m, bs, j);
    Ordered(bs, lo, hi, j, i);
    if i + 1 < |bs| { Ordered(bs, lo, hi, j, i + 1); }
  }

  lemma SplitAfter(m: Memory, bs: seq<Block>, lo: nat, hi: nat, i: nat, n: nat, j: nat)
    requires Linked(m, bs) && Tiled(bs, lo, hi) && 0 < lo && i < j < |bs| && Splits(bs[i], n)
    requires Has(m, bs, i) && (m[bs[i].addr].next != 0 ==> m[bs[i].addr].next in m)
    ensures Has(UseWrite(SplitWrites(m, bs[i].addr, n), bs[i].addr), Take(bs, i, n), j + 1)
  {
    hide Take, HeaderOf, Tiled;
    assert Has(m, bs, j) && Has(m, bs, i + 1);
    Ordered(bs, lo, hi, i, j);
    Inside(bs, lo, hi, i + 1);
    if j != i + 1 { Ordered(bs, lo, hi, i + 1, j); }
    TakeHeader(bs, i, n, j);
    NextHeader(bs, i);
  }

  lemma TakeHeader(bs: seq<Block>, i: nat, n: nat, j: nat)
    requires i < j < |bs| && Splits(bs[i], n)
    ensures var r := Take(bs, i, n);
            && j + 1 < |r| && r[j + 1] == bs[j]
            && var prev := if j == i + 1 then bs[i].addr + HEADER + n else HeaderOf(bs, j).prev;
               HeaderOf(r, j + 1) == HeaderOf(bs, j).(prev := prev)
  {
  }

  lemma NextHeader(bs: seq<Block>, i: nat)
    requires i + 1 < |bs|
    ensures HeaderOf(bs, i).next == bs[i + 1].addr
  {
  }

  lemma UseLinked(m: Memory, bs: seq<Block>, lo: nat, hi: nat, i: nat, n: nat)
    requires Linked(m, bs) && Tiled(bs, lo, hi) && i < |bs| && !Splits(bs[i], n)
    ensures Has(m, bs, i) && Linked(UseWrite(m, bs[i].addr), Take(bs, i, n))
  {
    assert Has(m, bs, i);
    var r := Take(bs, i, n);
    var m' := UseWrite(m, bs[i].addr);
    forall j | 0 <= j < |r| ensures Has(m', r, j) {
      assert Has(m, bs, j);
      if j != i { Distinct(bs, lo, hi, i, j); }
    }
  }

  lemma FreeLinked(m: Memory, bs: seq<Block>, lo: nat, hi: nat, i: nat)
    requires Linked(m, bs) && Tiled(bs, lo, hi) && i < |bs|
    ensures Has(m, bs, i) && Linked(m[bs[i].addr := m[bs[i].addr].(used := false)], FreedAt(bs, i))
  {
    assert Has(m, bs, i);
    var r := FreedAt(bs, i);
    var m' := m[bs[i].addr := m[bs[i].addr].(used := false)];
    forall j | 0 <= j < |r| ensures Has(m', r, j) {
      assert Has(m, bs, j);
      if j != i { Distinct(bs, lo, hi, i, j); }
    }
  }

  /** The header writes that join block `a` with the one after it. */
  function JoinWrites(m: Memory, a: nat): Memory
    requires a in m && m[a].next in m && (m[m[a].next].next != 0 ==> m[m[a].next].next in m)
  {
    var b := m[a].next;
    var m1 := m[a := m[a].(size := m[a].size + HEADER + m[b].size, next := m[b].next)];
    SetPrev(m1, m[b].next, a)
  }

  lemma JoinLinked(m: Memory, bs: seq<Block>, lo: nat, hi: nat, i: nat)
    requires Linked(m, bs) && Tiled(bs, lo, hi) && 0 < lo && i + 1 < |bs|
    ensures Has(m, bs, i) && Has(m, bs, i + 1) && (m[bs[i + 1].addr].next != 0 ==> m[bs[i + 1].addr].next in m)
    ensures Linked(JoinWrites(m, bs[i].addr), Absorb(bs, i))
  {
    assert Has(m, bs, i) && Has(m, bs, i + 1);
    if i + 2 < |bs| { assert Has(m, bs, i + 2); Distinct(bs, lo, hi, i, i + 2); Inside(bs, lo, hi, i + 2); }
    var r := Absorb(bs, i);
    var m' := JoinWrites(m, bs[i].addr);
    forall j | 0 <= j < |r| ensures Has(m', r, j) {
      if j < i {
        assert Has(m, bs, j);
        Distinct(bs, lo, hi, i, j);
        if i + 2 < |bs| { Distinct(bs, lo, hi, i + 2, j); }
      } else if j > i {
        assert Has(m, bs, j + 1);
        Distinct(bs, lo, hi, i, j + 1);
        if j + 1 != i + 2 { Distinct(bs, lo, hi, i + 2, j + 1); }
      }
    }
  }

  /** The header writes after the heap grew from `old` by `grow` bytes. */
  function GrowWrites(m: Memory, tail: nat, end: nat, grow: nat): Memory
    requires (tail != 0 ==> tail in m) && HEADER <= grow
  {
    if tail != 0 && !m[tail].used then m[tail := m[tail].(size := m[tail].size + grow)]
    else
      var m1 := m[end := Header(MAGIC, grow - HEADER, false, 0, tail)];
      if tail != 0 then m1[tail := m1[tail].(next := end)] else m1
  }

  lemma GrowLinked(m: Memory, bs: seq<Block>, lo: nat, hi: nat, grow: nat)
    requires Linked(m, bs) && Tiled(bs, lo, hi) && 0 < lo && HEADER <= grow
    ensures AddrAt(bs, |bs| - 1) != 0 ==> AddrAt(bs, |bs| - 1) in m
    ensures Linked(GrowWrites(m, AddrAt(bs, |bs| - 1), hi, grow), Grow(bs, hi, grow))
  {
    var k := |bs| - 1;
    if bs != [] { assert Has(m, bs, k); Inside(bs, lo, hi, k); }
    var r := Grow(bs, hi, grow);
    var m' := GrowWrites(m, AddrAt(bs, k), hi, grow);
    forall j | 0 <= j < |r| ensures Has(m', r, j) {
      if j < |bs| {
        assert Has(m, bs, j);
        Inside(bs, lo, hi, j);
        if j != k { Distinct(bs, lo, hi, j, k); }
      }
    }
  }

  // ------------------------------------------------- headers against payloads

  /** Only headers of blocks in `bs` were written. */
  ghost predicate OnlyHeaders(m: Memory, m': Memory, bs: seq<Block>)
  {
    forall a :: a in m' && (a !in m || m'[a] != m[a]) ==> Starts(bs, a)
  }

  ghost predicate Starts(bs: seq<Block>, a: nat)
  {
    exists k :: 0 <= k < |bs| && bs[k].addr == a
  }

  /** No header was written inside the payload of a block in `live`. */
  ghost predicate Clear(m: Memory, m': Memory, live: set<Block>)
  {
    forall a, b :: a in m' && (a !in m || m'[a] != m[a]) && b in live ==> a + HEADER <= Payload(b) || End(b) <= a
  }

  lemma HeadersClear(m: Memory, m': Memory, bs: seq<Block>, lo: nat, hi: nat)
    requires OnlyHeaders(m, m', bs) && Tiled(bs, lo, hi)
    ensures Clear(m, m', Live(bs))
  {
    forall a, b | a in m' && (a !in m || m'[a] != m[a]) && b in Live(bs)
      ensures a + HEADER <= Payload(b) || End(b) <= a
    {
      assert Starts(bs, a);
      var k :| 0 <= k < |bs| && bs[k].addr == a;
      var j :| 0 <= j < |bs| && bs[j] == b;
      if k != j { Distinct(bs, lo, hi, k, j); }
    }
  }

  lemma TakeOnly(m: Memory, m': Memory, bs: seq<Block>, i: nat, n: nat)
    requires i < |bs| && Has(m, bs, i) && (m[bs[i].addr].next != 0 ==> m[bs[i].addr].next in m)
    requires m' == if Splits(bs[i], n) then UseWrite(SplitWrites(m, bs[i].addr, n), bs[i].addr)
               else UseWrite(m, bs[i].addr)
    ensures OnlyHeaders(m, m', Take(bs, i, n)) && m.Keys <= m'.Keys
  {
    var r := Take(bs, i, n);
    assert r[i].addr == bs[i].addr;
    if Splits(bs[i], n) {
      assert r[i + 1].addr == bs[i].addr + HEADER + n;
      if i + 1 < |bs| { assert r[i + 2].addr == bs[i + 1].addr; }
    }
  }

  lemma GrowOnly(m: Memory, bs: seq<Block>, hi: nat, grow: nat)
    requires HEADER <= grow && (AddrAt(bs, |bs| - 1) != 0 ==> AddrAt(bs, |bs| - 1) in m)
    requires (bs != [] ==> Has(m, bs, |bs| - 1) && bs[|bs| - 1].addr != 0)
    ensures var m' := GrowWrites(m, AddrAt(bs, |bs| - 1), hi, grow);
            OnlyHeaders(m, m', Grow(bs, hi, grow)) && m.Keys <= m'.Keys
  {
    var r := Grow(bs, hi, grow);
    if bs != [] { assert r[|bs| - 1].addr == bs[|bs| - 1].addr; }
    assert bs == [] || bs[|bs| - 1].used ==> r[|bs|].addr == hi;
  }

  lemma JoinOnly(m: Memory, bs: seq<Block>, i: nat)
    requires i + 1 < |bs| && Has(m, bs, i) && Has(m, bs, i + 1)
    requires m[bs[i + 1].addr].next != 0 ==> m[bs[i + 1].addr].next in m
    ensures OnlyHeaders(m, JoinWrites(m, bs[i].addr), bs) && m.Keys <= JoinWrites(m, bs[i].addr).Keys
  {
    if i + 2 < |bs| { assert bs[i + 2].addr == AddrAt(bs, i + 2); }
  }

  // ----------------------------------------------------------------- the heap

  class Heap {
    const start: nat
    const limits: Limits
    var mem: Memory
    var head: nat
    var committed: nat
    ghost var blocks: seq<Block>

    /** What kheap_verify asserts, and that the list in memory is `blocks`. */
    ghost predicate Valid()
      reads this
    {
      && 0 < start && start % 16 == 0 && start <= committed <= limits.ceiling < WORD && limits.reserved < WORD
      && Good(blocks, start, committed) && Linked(mem, blocks) && head == AddrAt(blocks, 0)
    }

    /** kheap_init */
    constructor (base: nat, l: Limits)
      requires 0 < base <= l.reserved < WORD && base <= l.ceiling < WORD && base % 16 == 0
      ensures Valid() && start == base && limits == l && blocks == [] && committed == start
    {
      start, limits := base, l;
      mem := map[];
      head := 0;
      committed := base;
      blocks := [];
    }

    /** expand_heap. `granted` is how many frames can still be allocated. */
    method Expand(bytes: nat, granted: nat) returns (ok: bool)
      requires committed <= limits.ceiling < WORD
      modifies this`committed
      ensures ok <==> Expands(limits, old(committed), AlignPages(bytes), granted)
      ensures committed == old(committed) + PAGE * Gained(limits, old(committed), AlignPages(bytes), granted)
      ensures committed <= limits.ceiling
    {
      hide AlignPages;
      WholePages(bytes);
      var pagesNeeded := AlignPages(bytes) / PAGE;
      if (committed + pagesNeeded * PAGE % WORD) % WORD > limits.reserved { return false; }
      var i := 0;
      while i < pagesNeeded
        invariant 0 <= i <= pagesNeeded && i <= Room(limits, old(committed), granted)
        invariant committed == old(committed) + i * PAGE <= limits.ceiling
      {
        if i == granted || committed + PAGE > limits.ceiling { return false; }
        committed := committed + PAGE;
        i := i + 1;
      }
      return true;
    }

    /** The first free block with room for `n` bytes, or 0 and the last block. */
    method FindFit(n: nat) returns (curr: nat, tail: nat, ghost i: nat)
      requires Valid()
      ensures curr != 0 ==> FirstFit(blocks, n, i) && curr == blocks[i].addr
      ensures curr == 0 ==> NoFit(blocks, n) && tail == AddrAt(blocks, |blocks| - 1)
    {
      curr, tail, i := head, 0, 0;
      while curr != 0
        invariant 0 <= i <= |blocks| && curr == AddrAt(blocks, i) && tail == AddrAt(blocks, i - 1)
        invariant forall j :: 0 <= j < i ==> !Fits(blocks[j], n)
        decreases |blocks| - i
      {
        assert Has(mem, blocks, i);
        if !mem[curr].used && mem[curr].size >= n { return; }
        tail, curr, i := curr, mem[curr].next, i + 1;
      }
      if i < |blocks| { Inside(blocks, start, committed, i); }
    }

    /** Marks block `curr` used for `n` bytes, splitting it when enough is left. */
    method TakeBlock(curr: nat, n: nat, ghost i: nat)
      requires Valid() && i < |blocks| && curr == blocks[i].addr && Fits(blocks[i], n) && n % 16 == 0
      modifies this`mem, this`blocks
      ensures Valid() && blocks == Take(old(blocks), i, n)
      ensures OnlyHeaders(old(mem), mem, blocks) && old(mem).Keys <= mem.Keys
    {
      hide Tiled, Merged, Linked, Take, OnlyHeaders;
      ghost var m, bs := mem, blocks;
      TakeGood(bs, start, committed, i, n);
      TakeHead(bs, i, n);
      if Splits(blocks[i], n) {
        SplitLinked(m, bs, start, committed, i, n);
      } else {
        UseLinked(m, bs, start, committed, i, n);
        NextIn(m, bs, i);
      }
      var remaining := mem[curr].size - n;
      if remaining >= HEADER + 16 {
        var at := curr + HEADER + n;
        mem := mem[at := Header(MAGIC, remaining - HEADER, false, mem[curr].next, curr)];
        if mem[at].next != 0 {
          mem := mem[mem[at].next := mem[mem[at].next].(prev := at)];
        }
        mem := mem[curr := mem[curr].(next := at)];
        mem := mem[curr := mem[curr].(size := n)];
        assert mem == SplitWrites(m, curr, n);
      }
      mem := mem[curr := mem[curr].(used := true)];
      TakeOnly(m, mem, bs, i, n);
      blocks := Take(blocks, i, n);
    }

    /** The new space after growth from `prevEnd` becomes, or joins, a free block. */
    method AddSpace(tail: nat, prevEnd: nat)
      requires 0 < start && start % 16 == 0 && start <= prevEnd < committed <= limits.ceiling < WORD
      requires limits.reserved < WORD && (committed - prevEnd) % PAGE == 0
      requires Good(blocks, start, prevEnd) && Linked(mem, blocks)
      requires head == AddrAt(blocks, 0) && tail == AddrAt(blocks, |blocks| - 1)
      modifies this`mem, this`head, this`blocks
      ensures Valid() && blocks == Grow(old(blocks), prevEnd, committed - prevEnd)
      ensures OnlyHeaders(old(mem), mem, blocks) && old(mem).Keys <= mem.Keys
    {
      hide Tiled, Merged, Linked, Grow, OnlyHeaders;
      ghost var m, bs := mem, blocks;
      var grow := committed - prevEnd;
      GrowGood(bs, start, prevEnd, grow);
      GrowLinked(m, bs, start, prevEnd, grow);
      GrowHead(bs, prevEnd, grow);
      TailIn(m, bs, start, prevEnd);
      GrowOnly(m, bs, prevEnd, grow);
      if tail != 0 && !mem[tail].used {
        mem := mem[tail := mem[tail].(size := mem[tail].size + grow)];
      } else {
        mem := mem[prevEnd := Header(MAGIC, grow - HEADER, false, 0, tail)];
        if tail != 0 { mem := mem[tail := mem[tail].(next := prevEnd)]; } else { head := prevEnd; }
      }
      blocks := Grow(blocks, prevEnd, grow);
    }

    /** What a pass does when no block has room: grow, and make a free block of what
        was gained. */
    method Extend(tail: nat, bytes: nat, granted: nat) returns (expanded: bool)
      requires Valid() && tail == AddrAt(blocks, |blocks| - 1)
      modifies this`mem, this`head, this`committed, this`blocks
      ensures Valid() && blocks == Stocked(old(blocks), old(committed), committed)
      ensures expanded <==> Expands(limits, old(committed), AlignPages(bytes), granted)
      ensures committed == old(committed) + PAGE * Gained(limits, old(committed), AlignPages(bytes), granted)
      ensures OnlyHeaders(old(mem), mem, blocks) && old(mem).Keys <= mem.Keys
    {
      hide Tiled, Merged, Linked, Grow, OnlyHeaders, AlignPages, Gained, Expands;
      OnlyRefl(mem, blocks);
      var prevEnd := committed;
      expanded := Expand(bytes, granted);
      if committed > prevEnd { AddSpace(tail, prevEnd); }
    }

    /** kmalloc. The first block of the stocked list with room is taken; the heap
        grows only when none has room. The caller gets the bytes it asked for exactly
        for sizes up to 2^64 - 16. Most requests take at most two passes; one that
        drains the heap takes a pass for each page, and one whose growth vanishes
        takes passes for ever: the pass that leaves everything as it was is the last
        one here. */
    method KMalloc(size: nat, granted: nat) returns (answer: Answer, ghost at: nat, ghost passes: nat)
      requires Valid() && size < WORD
      modifies this`mem, this`head, this`committed, this`blocks
      ensures Valid() && Answered(limits, old(blocks), old(committed), size, granted, at, answer, blocks, committed)
      ensures Good(Stocked(old(blocks), old(committed), committed), start, committed)
      ensures !answer.Never? ==> (passes <= 2 <==> !LongSearch(limits, old(blocks), old(committed), size, granted))
      ensures answer.Pointer? ==>
        at < |blocks| && (Backs(blocks[at], Held(answer.ptr, size)) <==> size <= WORD - 16)
      ensures Clear(old(mem), mem, Live(blocks)) && old(mem).Keys <= mem.Keys
    {
      hide Tiled, Merged, Linked, Take, Clear, Live, FirstFit, NoFit, OnlyHeaders, Progress;
      hide AlignBytes, AlignPages, Expands, Gained, Stocked, Growth, Refused, Endless, LongSearch;
      at, passes := 0, 0;
      OnlyRefl(mem, blocks);
      HeadersClear(mem, mem, blocks, start, committed);
      ghost var bs, end, m, l := blocks, committed, mem, limits;
      NotGrown(bs, end);
      if size == 0 {
        ZeroRefused(l, bs, end, granted);
        return Null, at, passes;
      }
      var alignedSize := AlignBytes(size);
      var blockExtent := (HEADER + alignedSize) % WORD;
      RoundedBytes(size);
      NoPass(l, bs, end, size, granted);
      var used := 0;
      while true
        invariant Valid() && used <= granted && m.Keys <= mem.Keys && OnlyHeaders(m, mem, blocks)
        invariant blocks == Stocked(bs, end, committed)
        invariant Progress(l, bs, end, size, granted, passes, used, blocks, committed)
        decreases granted - used
      {
        var curr, tail;
        curr, tail, at := FindFit(alignedSize);
        FitOrNot(blocks, alignedSize, at);
        ghost var bs1, m1 := blocks, mem;
        var end1 := committed;
        if curr != 0 {
          Found(l, bs, end, size, granted, passes, used, blocks, start, committed, at);
          TakenServes(bs1, start, committed, at, size);
          TakeBlock(curr, alignedSize, at);
          OnlyTake(m, m1, bs1, at, alignedSize);
          OnlyTrans(m, m1, mem, blocks);
          HeadersClear(m, mem, blocks, start, committed);
          return Pointer(curr + HEADER), at, passes + 1;
        }
        var expanded := Extend(tail, blockExtent, granted - used);
        OnlyStocked(m, m1, bs1, end1, committed);
        OnlyTrans(m, m1, mem, blocks);
        HeadersClear(m, mem, blocks, start, committed);
        Stepped(l, bs, end, size, granted, passes, used, bs1, end1, committed);
        if !expanded { return Null, at, passes + 1; }
        if committed == end1 { return Never, at, passes + 1; }
        used, passes := used + (committed - end1) / PAGE, passes + 1;
      }
    }

    /** Joins block `a` with its free successor. */
    method Join(a: nat, ghost i: nat)
      requires 0 < start && Tiled(blocks, start, committed) && Linked(mem, blocks) && i + 1 < |blocks|
      requires a == blocks[i].addr
      modifies this`mem, this`blocks
      ensures Tiled(blocks, start, committed) && Linked(mem, blocks) && blocks == Absorb(old(blocks), i)
      ensures OnlyHeaders(old(mem), mem, old(blocks)) && old(mem).Keys <= mem.Keys
    {
      hide Tiled, Linked, OnlyHeaders, Absorb;
      ghost var m := mem;
      JoinLinked(mem, blocks, start, committed, i);
      JoinOnly(mem, blocks, i);
      AbsorbTiled(blocks, start, committed, i);
      var next := mem[a].next;
      mem := mem[a := mem[a].(size := mem[a].size + (HEADER + mem[next].size))];
      mem := mem[a := mem[a].(next := mem[next].next)];
      if mem[a].next != 0 {
        mem := mem[mem[a].next := mem[mem[a].next].(prev := a)];
      }
      assert mem == JoinWrites(m, a);
      blocks := Absorb(blocks, i);
    }

    /** kfree of nothing or of a payload handed out by kmalloc. */
    method KFree(ptr: nat, ghost i: nat)
      requires Valid() && (ptr != 0 ==> i < |blocks| && blocks[i].used && ptr == Payload(blocks[i]))
      modifies this`mem, this`blocks
      ensures Valid() && blocks == if ptr == 0 then old(blocks) else Release(old(blocks), i)
      ensures Clear(old(mem), mem, old(Live(blocks))) && old(mem).Keys <= mem.Keys
    {
      hide Tiled, Merged, Linked, OnlyHeaders, Clear, Live, Absorb;
      ghost var m, bs := mem, blocks;
      OnlyRefl(m, bs);
      if ptr == 0 {
        HeadersClear(m, mem, bs, start, committed);
        return;
      }
      var block := ptr - HEADER;
      FreeLinked(m, bs, start, committed, i);
      ReleaseGood(bs, start, committed, i);
      ReleaseHead(bs, i);
      FreedTiled(bs, start, committed, i);
      FreeOnly(m, bs, i);
      FreedStarts(bs, i);
      mem := mem[block := mem[block].(used := false)];
      blocks := FreedAt(blocks, i);
      ghost var m1, a := mem, blocks;
      Coalesce(block, i);
      OnlySame(m1, mem, a, bs);
      OnlyTrans(m, m1, mem, bs);
      HeadersClear(m, mem, bs, start, committed);
    }

    /** Merges a block that became free with its free neighbours. */
    method Coalesce(block: nat, ghost i: nat)
      requires 0 < start && Tiled(blocks, start, committed) && Linked(mem, blocks) && i < |blocks|
      requires block == blocks[i].addr
      modifies this`mem, this`blocks
      ensures Linked(mem, blocks) && blocks == MergePrev(MergeNext(old(blocks), i), i)
      ensures OnlyHeaders(old(mem), mem, old(blocks)) && old(mem).Keys <= mem.Keys
    {
      hide Tiled, Linked, OnlyHeaders, Absorb;
      ghost var m, a := mem, blocks;
      OnlyRefl(m, a);
      Neighbours(mem, blocks, start, committed, i);
      if mem[block].next != 0 && !mem[mem[block].next].used {
        Join(block, i);
      }
      ghost var m1, b := mem, blocks;
      KeptStarts(a, i);
      Neighbours(mem, blocks, start, committed, i);
      if mem[block].prev != 0 && !mem[mem[block].prev].used {
        Join(mem[block].prev, i - 1);
        OnlySame(m1, mem, b, a);
        OnlyTrans(m, m1, mem, a);
      }
    }

    /** One turn of kheap_verify's loop, on any list. */
    method VerifyBlock(curr: nat, ghost bs: seq<Block>, ghost i: nat) returns (ok: bool)
      requires Chained(mem, head, bs) && i < |bs| && curr == bs[i].addr
      ensures curr in mem && mem[curr].size == bs[i].size && mem[curr].next == AddrAt(bs, i + 1)
      ensures ok <==> Checked(mem, head, bs, start, committed, i)
    {
      ChainedAt(mem, head, bs, i);
      if i + 1 < |bs| { ChainedAt(mem, head, bs, i + 1); }
      hide Chained;
      ok := start <= curr < committed;
      var extent := HEADER + mem[curr].size;
      ok := ok && curr + extent <= committed;
      ok := ok && (curr + HEADER) % 16 == 0 && mem[curr].size % 16 == 0 && extent % 16 == 0;
      if mem[curr].next != 0 {
        ok := ok && mem[mem[curr].next].prev == curr && curr + extent == mem[curr].next;
      } else {
        ok := ok && curr + extent == committed;
      }
      if mem[curr].prev != 0 {
        ok := ok && mem[mem[curr].prev].next == curr;
      } else {
        ok := ok && curr == head;
      }
      if !mem[curr].used && mem[curr].next != 0 {
        ok := ok && mem[mem[curr].next].used;
      }
    }

    /** kheap_verify on the list `bs` that hangs off `head`, whatever it looks like: it
        finds no fault exactly when there is no block or the blocks tile the committed
        range, no two neighbours are free, and the links agree. */
    method Verify(ghost bs: seq<Block>) returns (ok: bool)
      requires Chained(mem, head, bs)
      ensures ok <==> bs == [] || Verified(mem, bs, start, committed)
      ensures Valid() && bs == blocks ==> ok
    {
      hide Chained, Checked, Verified, Good, Linked;
      if Valid() && bs == blocks { ValidVerified(mem, head, blocks, start, committed); }
      HeadOf(mem, head, bs);
      if head == 0 { return true; }
      ok := true;
      var curr, total := head, 0;
      ghost var i := 0;
      while curr != 0
        invariant 0 <= i <= |bs| && curr == AddrAt(bs, i) && (curr == 0 <==> i == |bs|)
        invariant ok <==> forall j: nat :: j < i ==> Checked(mem, head, bs, start, committed, j)
        invariant total == Allocated(bs[..i]) + FreeBytes(bs[..i]) + HEADER * i
        decreases |bs| - i
      {
        assert bs[..i + 1][..i] == bs[..i];
        var sound := VerifyBlock(curr, bs, i);
        if i + 1 < |bs| { ChainedAt(mem, head, bs, i + 1); }
        ok := ok && sound;
        var extent := HEADER + mem[curr].size;
        total, curr, i := total + extent, mem[curr].next, i + 1;
      }
      assert bs[..i] == bs;
      ok := ok && total == committed - start;
      VerifiedIff(mem, head, bs, start, committed);
    }

    /** kheap_get_stats: the sums over the list, and that they account for every
        committed byte. */
    method GetStats() returns (inUse: nat, free: nat, count: nat, freeCount: nat)
      requires Valid()
      ensures inUse == Allocated(blocks) && free == FreeBytes(blocks) && count == |blocks|
      ensures freeCount == FreeCount(blocks)
      ensures inUse + free + HEADER * count == committed - start
    {
      Accounting(blocks, start, committed);
      var curr := head;
      inUse, free, count, freeCount := 0, 0, 0, 0;
      while curr != 0
        invariant 0 <= count <= |blocks| && curr == AddrAt(blocks, count)
        invariant inUse == Allocated(blocks[..count]) && free == FreeBytes(blocks[..count])
        invariant freeCount == FreeCount(blocks[..count])
        decreases |blocks| - count
      {
        assert Has(mem, blocks, count);
        assert blocks[..count + 1][..count] == blocks[..count];
        if !mem[curr].used {
          freeCount := freeCount + 1;
          free := free + mem[curr].size;
        } else {
          inUse := inUse + mem[curr].size;
        }
        count := count + 1;
        curr := mem[curr].next;
      }
      if count < |blocks| { Inside(blocks, start, committed, count); }
      assert blocks[..count] == blocks;
    }
  }

  // ------------------------------------------------------ what kmalloc answers

  /** A call of kmalloc adds the bytes of one block to those allocated: the request
      rounded up, or a block less than 64 bytes larger. */
  lemma MallocSums(l: Limits, bs: seq<Block>, end: nat, size: nat, granted: nat, at: nat, answer: Answer,
                   bs': seq<Block>, end': nat)
    requires Answered(l, bs, end, size, granted, at, answer, bs', end')
    ensures answer.Pointer? ==>
      var n, stock := AlignBytes(size), Stocked(bs, end, end');
      && at < |stock| && !stock[at].used && stock[at].size >= n
      && var whole := stock[at].size - n < 64;
         && Allocated(bs') == Allocated(bs) + (if whole then stock[at].size else n)
         && FreeBytes(bs') == FreeBytes(stock) - (if whole then stock[at].size else n + 48)
    ensures !answer.Pointer? ==> Allocated(bs') == Allocated(bs)
    ensures FreeBytes(Stocked(bs, end, end')) ==
              FreeBytes(bs) + if end' < end + 48 then 0
                              else end' - end - if bs != [] && !bs[|bs| - 1].used then 0 else 48
  {
    hide Allocated, FreeBytes, Growth, Refused, Endless, AlignBytes, Take, Grow;
    if end' >= end + HEADER { GrowSums(bs, end, end' - end); }
    if answer.Pointer? { TakeSums(Stocked(bs, end, end'), at, AlignBytes(size)); }
  }

  /** A request that wraps nowhere, rounded to `n` bytes and, with its header, to `need`
      bytes of whole pages: it is met from the first block that is free and large
      enough; failing that from `need` more bytes, if there are so many below both ends
      and so many pages can be had; failing that it gets null. */
  lemma OrdinaryMalloc(l: Limits, bs: seq<Block>, end: nat, size: nat, granted: nat, at: nat, answer: Answer,
                       bs': seq<Block>, end': nat, n: nat, need: nat)
    requires Answered(l, bs, end, size, granted, at, answer, bs', end') && 0 < size && end + size + 4207 < WORD
    requires n % 16 == 0 && size <= n < size + 16 && need % 4096 == 0 && 48 + n <= need < 48 + n + 4096
    ensures !answer.Never?
    ensures
      var fits := exists j :: 0 <= j < |bs| && !bs[j].used && bs[j].size >= n;
      var grows := end + need <= l.reserved && end + need <= l.ceiling && need / 4096 <= granted;
      && (answer.Pointer? <==> fits || grows)
      && (fits ==>
            && end' == end && at < |bs| && !bs[at].used && bs[at].size >= n && answer.ptr == bs[at].addr + 48
            && (forall j :: 0 <= j < at ==> bs[j].used || bs[j].size < n))
      && (!fits && grows ==> end' == end + need)
      && (!fits && !grows && end + need > l.reserved ==> end' == end)
      && (!fits && !grows && end + need <= l.reserved ==>
            end' == end + 4096 * if granted < (l.ceiling - end) / 4096 then granted else (l.ceiling - end) / 4096)
  {
    Rounded(size, n, need);
    hide AlignBytes, Need, Take;
  }

  lemma Rounded(size: nat, n: nat, need: nat)
    requires size + 4207 < WORD
    requires n % 16 == 0 && size <= n < size + 16 && need % 4096 == 0 && 48 + n <= need < 48 + n + 4096
    ensures AlignBytes(size) == n && Need(size) == need
  {
    RoundBytes(size);
    RoundPages(48 + n);
    hide AlignBytes, AlignPages;
    assert AlignBytes(size) == n;
    assert Extent(size) == 48 + n;
    assert AlignPages(48 + n) == need;
  }

  // ---------------------------------------------------------- kheap_verify

  /** The `next` pointers from `head` lead through the blocks `bs`, and every other
      pointer in them leads to a header. */
  ghost predicate Chained(m: Memory, head: nat, bs: seq<Block>)
  {
    head == AddrAt(bs, 0) && forall i: nat :: i < |bs| ==> ChainLink(m, bs, i)
  }

  ghost predicate ChainLink(m: Memory, bs: seq<Block>, i: nat)
    requires i < |bs|
  {
    && bs[i].addr != 0 && bs[i].addr in m
    && var h := m[bs[i].addr];
       && h.size == bs[i].size && h.used == bs[i].used && h.next == AddrAt(bs, i + 1)
       && (h.prev != 0 ==> h.prev in m)
  }

  lemma ChainedAt(m: Memory, head: nat, bs: seq<Block>, i: nat)
    requires Chained(m, head, bs) && i < |bs|
    ensures ChainLink(m, bs, i)
  {
  }

  lemma HeadOf(m: Memory, head: nat, bs: seq<Block>)
    requires Chained(m, head, bs)
    ensures head == AddrAt(bs, 0) && (head == 0 <==> bs == [])
  {
    if bs != [] { assert ChainLink(m, bs, 0); }
  }

  /** The assertions of one turn. */
  ghost predicate Checked(m: Memory, head: nat, bs: seq<Block>, lo: nat, hi: nat, i: nat)
    requires i < |bs|
  {
    && ChainLink(m, bs, i) && (i + 1 < |bs| ==> ChainLink(m, bs, i + 1))
    && var a, h := bs[i].addr, m[bs[i].addr];
       && lo <= a < hi && End(bs[i]) <= hi && a % 16 == 0 && h.size % 16 == 0
       && (if i + 1 < |bs| then m[h.next].prev == a && End(bs[i]) == bs[i + 1].addr else End(bs[i]) == hi)
       && (if h.prev != 0 then m[h.prev].next == a else a == head)
       && (i + 1 < |bs| ==> bs[i].used || bs[i + 1].used)
  }

  /** The blocks tile the range, free neighbours are merged, and `prev` undoes `next`;
      before the first block there is nothing, or a header that leads to it. */
  ghost predicate Verified(m: Memory, bs: seq<Block>, lo: nat, hi: nat)
  {
    && Good(bs, lo, hi) && bs != []
    && (forall i: nat :: i < |bs| ==> bs[i].addr in m)
    && (forall i: nat :: i + 1 < |bs| ==> m[bs[i + 1].addr].prev == bs[i].addr)
    && var p := m[bs[0].addr].prev; p == 0 || (p in m && m[p].next == bs[0].addr)
  }

  lemma VerifiedIff(m: Memory, head: nat, bs: seq<Block>, lo: nat, hi: nat)
    requires Chained(m, head, bs) && bs != []
    ensures Verified(m, bs, lo, hi) <==>
              && (forall i: nat :: i < |bs| ==> Checked(m, head, bs, lo, hi, i))
              && Allocated(bs) + FreeBytes(bs) + HEADER * |bs| == hi - lo
  {
    if Verified(m, bs, lo, hi) { VerifiedChecks(m, head, bs, lo, hi); }
    if forall i: nat :: i < |bs| ==> Checked(m, head, bs, lo, hi, i) { ChecksTile(m, head, bs, lo, hi); }
  }

  lemma VerifiedChecks(m: Memory, head: nat, bs: seq<Block>, lo: nat, hi: nat)
    requires Chained(m, head, bs) && Verified(m, bs, lo, hi)
    ensures forall i: nat :: i < |bs| ==> Checked(m, head, bs, lo, hi, i)
    ensures Allocated(bs) + FreeBytes(bs) + HEADER * |bs| == hi - lo
  {
    Accounting(bs, lo, hi);
    forall i: nat | i < |bs| ensures Checked(m, head, bs, lo, hi, i) {
      Inside(bs, lo, hi, i);
      ChainedAt(m, head, bs, i);
      if i > 0 { ChainedAt(m, head, bs, i - 1); }
      if i + 1 < |bs| {
        ChainedAt(m, head, bs, i + 1);
        assert Adjacent(bs, i) && Apart(bs, i);
      }
    }
  }

  lemma ChecksTile(m: Memory, head: nat, bs: seq<Block>, lo: nat, hi: nat)
    requires Chained(m, head, bs) && bs != [] && forall i: nat :: i < |bs| ==> Checked(m, head, bs, lo, hi, i)
    ensures Allocated(bs) + FreeBytes(bs) + HEADER * |bs| == hi - lo ==> Verified(m, bs, lo, hi)
  {
    var n := |bs| - 1;
    forall i: nat | i + 1 < |bs| ensures Adjacent(bs, i) && Apart(bs, i) { assert Checked(m, head, bs, lo, hi, i); }
    assert Checked(m, head, bs, lo, hi, n) && Checked(m, head, bs, lo, hi, 0);
    forall i | 0 <= i < |bs| ensures Aligned(bs[i]) { assert Checked(m, head, bs, lo, hi, i); }
    assert Tiled(bs, bs[0].addr, hi);
    Accounting(bs, bs[0].addr, hi);
    forall i: nat | i < |bs| ensures bs[i].addr in m { ChainedAt(m, head, bs, i); }
    forall i: nat | i + 1 < |bs| ensures m[bs[i + 1].addr].prev == bs[i].addr {
      assert Checked(m, head, bs, lo, hi, i);
    }
  }

  /** The list of a valid heap is such a list, and passes. */
  lemma ValidVerified(m: Memory, head: nat, bs: seq<Block>, lo: nat, hi: nat)
    requires 0 < lo && Good(bs, lo, hi) && Linked(m, bs) && head == AddrAt(bs, 0)
    ensures Chained(m, head, bs) && (bs != [] ==> Verified(m, bs, lo, hi))
  {
    forall i: nat | i < |bs| ensures ChainLink(m, bs, i) {
      assert Has(m, bs, i);
      Inside(bs, lo, hi, i);
      if i > 0 { assert Has(m, bs, i - 1); }
    }
    forall i: nat | i < |bs| ensures bs[i].addr in m { assert Has(m, bs, i); }
    forall i: nat | i + 1 < |bs| ensures m[bs[i + 1].addr].prev == bs[i].addr { assert Has(m, bs, i + 1); }
    if bs != [] { assert Has(m, bs, 0); }
  }

  lemma ReleaseHead(bs: seq<Block>, i: nat)
    requires i < |bs|
    ensures AddrAt(Release(bs, i), 0) == AddrAt(bs, 0)
  {
  }

  lemma FreedTiled(bs: seq<Block>, lo: nat, hi: nat, i: nat)
    requires Tiled(bs, lo, hi) && i < |bs|
    ensures Tiled(FreedAt(bs, i), lo, hi)
  {
    var a := FreedAt(bs, i);
    forall j: nat | j + 1 < |a| ensures Adjacent(a, j) { assert Adjacent(bs, j); }
  }

  lemma FreeOnly(m: Memory, bs: seq<Block>, i: nat)
    requires i < |bs| && bs[i].addr in m
    ensures OnlyHeaders(m, m[bs[i].addr := m[bs[i].addr].(used := false)], bs)
  {
    assert Starts(bs, bs[i].addr);
  }

  /** The links of block `i` lead to its neighbours in the list. */
  lemma Neighbours(m: Memory, bs: seq<Block>, lo: nat, hi: nat, i: nat)
    requires Linked(m, bs) && Tiled(bs, lo, hi) && 0 < lo && i < |bs|
    ensures Has(m, bs, i)
    ensures m[bs[i].addr].next != 0 <==> i + 1 < |bs|
    ensures m[bs[i].addr].prev != 0 <==> 0 < i
    ensures i + 1 < |bs| ==> Has(m, bs, i + 1) && m[bs[i].addr].next == bs[i + 1].addr
    ensures 0 < i ==> Has(m, bs, i - 1) && m[bs[i].addr].prev == bs[i - 1].addr
  {
    assert Has(m, bs, i);
    if i + 1 < |bs| { Inside(bs, lo, hi, i + 1); }
    if 0 < i { Inside(bs, lo, hi, i - 1); }
  }

  lemma FreedStarts(bs: seq<Block>, i: nat)
    requires i < |bs|
    ensures var a := FreedAt(bs, i); forall k :: 0 <= k < |a| ==> Starts(bs, a[k].addr)
  {
    var a := FreedAt(bs, i);
    forall k | 0 <= k < |a| ensures Starts(bs, a[k].addr) { assert bs[k].addr == a[k].addr; }
  }

  /** Merging loses a header address but makes no new one. */
  lemma KeptStarts(a: seq<Block>, i: nat)
    requires i < |a|
    ensures var b := MergeNext(a, i); forall k :: 0 <= k < |b| ==> Starts(a, b[k].addr)
  {
    var b := MergeNext(a, i);
    forall k | 0 <= k < |b| ensures Starts(a, b[k].addr) {
      assert a[if b == a || k <= i then k else k + 1].addr == b[k].addr;
    }
  }

  lemma OnlySame(m: Memory, m': Memory, bs: seq<Block>, bs': seq<Block>)
    requires OnlyHeaders(m, m', bs) && forall k :: 0 <= k < |bs| ==> Starts(bs', bs[k].addr)
    ensures OnlyHeaders(m, m', bs')
  {
  }

  // ------------------------------------------------------- what kmalloc does

  datatype Answer = Pointer(ptr: nat) | Null | Never

  /** How far kmalloc grows the heap: not at all when a block has room; page by page
      as far as it goes for a request that drains it; else by what one growth gains. */
  ghost function Growth(l: Limits, bs: seq<Block>, end: nat, size: nat, granted: nat): nat
    requires end <= l.ceiling
  {
    if size == 0 || !NoFit(bs, AlignBytes(size)) then 0
    else if !Drains(size) then PAGE * Gained(l, end, Need(size), granted)
    else if end > l.reserved then 0
    else if Room(l, end, granted) < (l.reserved - end) / PAGE then PAGE * Room(l, end, granted)
    else PAGE * ((l.reserved - end) / PAGE)
  }

  /** kmalloc returns null. */
  ghost predicate Refused(l: Limits, bs: seq<Block>, end: nat, size: nat, granted: nat)
    requires end <= l.ceiling
  {
    size == 0 || (NoFit(bs, AlignBytes(size)) && (Drains(size) || !Expands(l, end, Need(size), granted)))
  }

  /** kmalloc does not return. */
  ghost predicate Endless(l: Limits, bs: seq<Block>, end: nat, size: nat)
  {
    Vanishes(size) && NoFit(bs, AlignBytes(size)) && end <= l.reserved
  }

  /** kmalloc returns, but after more than two passes: two pages or more go to a
      request that can never be met. */
  ghost predicate LongSearch(l: Limits, bs: seq<Block>, end: nat, size: nat, granted: nat)
    requires end <= l.ceiling
  {
    Drains(size) && NoFit(bs, AlignBytes(size)) && end + 2 * PAGE <= l.reserved && 2 <= Room(l, end, granted)
  }

  /** The list that kmalloc allocates from: `bs`, grown if need be. */
  function Stocked(bs: seq<Block>, end: nat, end': nat): seq<Block>
  {
    if end' >= end + HEADER then Grow(bs, end, end' - end) else bs
  }

  /** The whole effect of kmalloc on the list and the end of the heap. */
  ghost predicate Answered(l: Limits, bs: seq<Block>, end: nat, size: nat, granted: nat, at: nat,
                           answer: Answer, bs': seq<Block>, end': nat)
  {
    var n, stock := AlignBytes(size), Stocked(bs, end, end');
    && end <= l.ceiling && end' == end + Growth(l, bs, end, size, granted)
    && (answer.Never? <==> Endless(l, bs, end, size))
    && (answer.Null? <==> Refused(l, bs, end, size, granted))
    && if answer.Pointer? then FirstFit(stock, n, at) && answer.ptr == Payload(stock[at]) && bs' == Take(stock, at, n)
       else bs' == stock
  }

  /** The heap stays below its reserved end exactly unless the wrapped test lets a
      growth through and there are pages enough to pass it. */
  lemma StaysReserved(l: Limits, bs: seq<Block>, end: nat, size: nat, granted: nat)
    requires end <= l.reserved && l.reserved < WORD && end <= l.ceiling < WORD && size < WORD
    ensures end + Growth(l, bs, end, size, granted) > l.reserved <==>
              && size > 0 && NoFit(bs, AlignBytes(size)) && end + Need(size) >= WORD
              && end + Need(size) - WORD <= l.reserved && end + PAGE * Room(l, end, granted) > l.reserved
  {
    hide AlignBytes, AlignPages, NoFit;
    Kinds(size);
  }

  lemma NoWrapStays(l: Limits, bs: seq<Block>, end: nat, size: nat, granted: nat)
    requires end <= l.reserved && l.reserved < WORD && end <= l.ceiling < WORD && size + 4144 + l.reserved <= WORD
    ensures end + Growth(l, bs, end, size, granted) <= l.reserved
  {
    hide AlignBytes, AlignPages, NoFit;
    StaysReserved(l, bs, end, size, granted);
    SmallNeed(size);
  }

  lemma SmallNeed(size: nat)
    requires size <= WORD - 4144
    ensures Need(size) <= size + 4143
  {
    RoundBytes(size);
    RoundPages(Extent(size));
  }

  /** On the heap that Kryos starts with, a request of 64 TB less a header passes the
      test of the reserved end and takes every page there is, past that end. */
  lemma PastTheReserve(granted: nat)
    requires 0x4_0000 < granted < 0x1000_0000
    ensures var l := Limits(0xFFFF_C000_4000_0000, 0xFFFF_FFFF_8000_0000);
            var end, size := 0xFFFF_C000_0000_0000, 0x4000_0000_0000 - 48;
            Refused(l, [], end, size, granted) && end + Growth(l, [], end, size, granted) > l.reserved
  {
  }

  /** On any heap without a free block of that size, this request never returns. */
  lemma HugeRequest(l: Limits, end: nat)
    requires end <= l.reserved
    ensures Endless(l, [], end, WORD - 4096)
  {
  }

  /** Where the search stands after some passes that all ended with growth. */
  ghost predicate Progress(l: Limits, bs: seq<Block>, end: nat, size: nat, granted: nat,
                           passes: nat, used: nat, cur: seq<Block>, now: nat)
  {
    && end <= l.ceiling < WORD && l.reserved < WORD && 0 < size < WORD
    && now == end + PAGE * used && cur == Stocked(bs, end, now) && used <= granted
    && if passes == 0 then used == 0
       else
         && NoFit(bs, AlignBytes(size)) && used <= Room(l, end, granted) && now <= l.reserved && !Vanishes(size)
         && if Drains(size) then used == passes
            else passes == 1 && PAGE * used == Need(size) && !NoFit(cur, AlignBytes(size))
  }

  lemma NoPass(l: Limits, bs: seq<Block>, end: nat, size: nat, granted: nat)
    requires end <= l.ceiling < WORD && l.reserved < WORD && 0 < size < WORD
    ensures Progress(l, bs, end, size, granted, 0, 0, bs, end)
  {
  }

  lemma NotGrown(bs: seq<Block>, end: nat)
    ensures Stocked(bs, end, end) == bs
  {
  }

  lemma ZeroRefused(l: Limits, bs: seq<Block>, end: nat, granted: nat)
    requires end <= l.ceiling
    ensures Answered(l, bs, end, 0, granted, 0, Null, bs, end) && !LongSearch(l, bs, end, 0, granted)
  {
  }

  lemma RoundedBytes(size: nat)
    ensures AlignBytes(size) % 16 == 0
  {
  }

  /** No block of a heap below 2^64 has room for a request that drains it. */
  lemma DrainNoFit(bs: seq<Block>, lo: nat, hi: nat, size: nat)
    requires Tiled(bs, lo, hi) && hi < WORD && Drains(size)
    ensures NoFit(bs, AlignBytes(size))
  {
    hide AlignBytes, AlignPages, Tiled;
    Kinds(size);
    forall j | 0 <= j < |bs| ensures !Fits(bs[j], AlignBytes(size)) { Inside(bs, lo, hi, j); }
  }

  /** A pass that finds a block ends the search as it should. */
  lemma Found(l: Limits, bs: seq<Block>, end: nat, size: nat, granted: nat, passes: nat, used: nat,
              cur: seq<Block>, lo: nat, now: nat, at: nat)
    requires Progress(l, bs, end, size, granted, passes, used, cur, now) && Tiled(cur, lo, now) && now < WORD
    requires FirstFit(cur, AlignBytes(size), at)
    ensures !Endless(l, bs, end, size) && !Refused(l, bs, end, size, granted)
    ensures now == end + Growth(l, bs, end, size, granted) && passes <= 1
    ensures !LongSearch(l, bs, end, size, granted)
  {
    hide AlignBytes, AlignPages, NoFit, FirstFit, Tiled;
    FitOrNot(cur, AlignBytes(size), at);
    NotGrown(bs, end);
    Kinds(size);
    hide Stocked;
    if Drains(size) { DrainNoFit(cur, lo, now, size); }
  }

  /** What is left of the room after some pages were used. */
  lemma RoomLeft(l: Limits, end: nat, granted: nat, used: nat)
    requires end <= l.ceiling && used <= Room(l, end, granted)
    ensures used <= granted && end + PAGE * used <= l.ceiling
    ensures Room(l, end + PAGE * used, granted - used) == Room(l, end, granted) - used
  {
  }

  /** A pass that finds nothing: the search ends, goes on for ever, or goes on. */
  lemma Stepped(l: Limits, bs: seq<Block>, end: nat, size: nat, granted: nat, passes: nat, used: nat,
                cur: seq<Block>, now: nat, now': nat)
    requires Progress(l, bs, end, size, granted, passes, used, cur, now) && NoFit(cur, AlignBytes(size))
    requires now <= l.ceiling && now' == now + PAGE * Gained(l, now, Need(size), granted - used)
    ensures Stocked(cur, now, now') == Stocked(bs, end, now')
    ensures !Expands(l, now, Need(size), granted - used) ==>
      && Refused(l, bs, end, size, granted) && !Endless(l, bs, end, size)
      && now' == end + Growth(l, bs, end, size, granted)
      && (passes + 1 <= 2 <==> !LongSearch(l, bs, end, size, granted))
    ensures Expands(l, now, Need(size), granted - used) && now' == now ==>
      && Endless(l, bs, end, size) && !Refused(l, bs, end, size, granted)
      && now' == end + Growth(l, bs, end, size, granted)
    ensures Expands(l, now, Need(size), granted - used) && now' != now ==>
      used + (now' - now) / PAGE <= granted &&
      Progress(l, bs, end, size, granted, passes + 1, used + (now' - now) / PAGE, Stocked(cur, now, now'), now')
  {
    hide AlignBytes, AlignPages, NoFit, Stocked;
    Kinds(size);
    NotGrown(bs, end);
    StockedTwice(bs, end, now, now');
    if passes > 0 {
      LaterStep(l, bs, end, size, granted, passes, used, cur, now, now');
    } else if Expands(l, now, Need(size), granted) && now' != now {
      assert now' == end + Need(size);
      if !Drains(size) { GrownEnough(bs, end, now', AlignBytes(size)); }
    }
  }

  /** The same for the second pass and later ones, which only a request that drains
      the heap comes to. */
  lemma LaterStep(l: Limits, bs: seq<Block>, end: nat, size: nat, granted: nat, passes: nat, used: nat,
                  cur: seq<Block>, now: nat, now': nat)
    requires Progress(l, bs, end, size, granted, passes, used, cur, now) && NoFit(cur, AlignBytes(size))
    requires 0 < passes && now <= l.ceiling && now' == now + PAGE * Gained(l, now, Need(size), granted - used)
    ensures Drains(size) && Need(size) == PAGE && used == passes
    ensures Expands(l, now, PAGE, granted - used) ==>
      now' == now + PAGE <= l.reserved && used + 1 <= Room(l, end, granted)
    ensures !Expands(l, now, PAGE, granted - used) ==>
      && now' == now == end + Growth(l, bs, end, size, granted)
      && (passes + 1 <= 2 <==> !LongSearch(l, bs, end, size, granted))
  {
    hide AlignBytes, AlignPages, NoFit, Stocked;
    Kinds(size);
    RoomLeft(l, end, granted, used);
  }

  lemma StockedTwice(bs: seq<Block>, end: nat, end': nat, end'': nat)
    requires end <= end' <= end'' && (end' - end) % PAGE == 0 && (end'' - end') % PAGE == 0
    ensures Stocked(Stocked(bs, end, end'), end', end'') == Stocked(bs, end, end'')
  {
    hide Grow;
    if end < end' < end'' { GrowTwice(bs, end, end' - end, end'' - end'); }
  }

  lemma GrownEnough(bs: seq<Block>, end: nat, end': nat, n: nat)
    requires NoFit(bs, n) && end + HEADER + n <= end'
    ensures !NoFit(Stocked(bs, end, end'), n)
  {
    GrownFits(bs, end, end' - end, n);
  }

  /** The block taken holds the request exactly for sizes up to 2^64 - 16. */
  lemma TakenServes(bs: seq<Block>, lo: nat, hi: nat, at: nat, size: nat)
    requires Tiled(bs, lo, hi) && hi < WORD && size < WORD && FirstFit(bs, AlignBytes(size), at)
    ensures at < |Take(bs, at, AlignBytes(size))|
    ensures Backs(Take(bs, at, AlignBytes(size))[at], Held(Payload(bs[at]), size)) <==> size <= WORD - 16
  {
    hide AlignBytes, Tiled;
    AlignedEnough(size);
    Inside(bs, lo, hi, at);
  }

  lemma TakeHead(bs: seq<Block>, i: nat, n: nat)
    requires i < |bs|
    ensures AddrAt(Take(bs, i, n), 0) == AddrAt(bs, 0)
  {
  }

  lemma OnlyRefl(m: Memory, bs: seq<Block>)
    ensures OnlyHeaders(m, m, bs)
  {
  }

  lemma OnlyTrans(m: Memory, m1: Memory, m2: Memory, bs: seq<Block>)
    requires OnlyHeaders(m, m1, bs) && OnlyHeaders(m1, m2, bs) && m.Keys <= m1.Keys <= m2.Keys
    ensures OnlyHeaders(m, m2, bs)
  {
    hide Starts;
    forall a | a in m2 && (a !in m || m2[a] != m[a]) ensures Starts(bs, a) {
      if a in m1 && m2[a] == m1[a] { assert a !in m || m1[a] != m[a]; }
    }
  }

  /** Taking a block keeps every header address. */
  lemma OnlyTake(m: Memory, m': Memory, bs: seq<Block>, i: nat, n: nat)
    requires OnlyHeaders(m, m', bs) && i < |bs|
    ensures OnlyHeaders(m, m', Take(bs, i, n))
  {
    var r := Take(bs, i, n);
    forall a | Starts(bs, a) ensures Starts(r, a) {
      var k :| 0 <= k < |bs| && bs[k].addr == a;
      assert r[if Splits(bs[i], n) && k > i then k + 1 else k].addr == a;
    }
  }

  lemma OnlyStocked(m: Memory, m': Memory, bs: seq<Block>, end: nat, end': nat)
    requires OnlyHeaders(m, m', bs)
    ensures OnlyHeaders(m, m', Stocked(bs, end, end'))
  {
    var r := Stocked(bs, end, end');
    forall a | Starts(bs, a) ensures Starts(r, a) {
      var k :| 0 <= k < |bs| && bs[k].addr == a;
      assert r[k].addr == a;
    }
  }

  lemma NextIn(m: Memory, bs: seq<Block>, i: nat)
    requires Linked(m, bs) && i < |bs|
    ensures Has(m, bs, i) && (m[bs[i].addr].next != 0 ==> m[bs[i].addr].next in m)
  {
    assert Has(m, bs, i);
    if i + 1 < |bs| { assert Has(m, bs, i + 1); }
  }

  lemma TailIn(m: Memory, bs: seq<Block>, lo: nat, hi: nat)
    requires Linked(m, bs) && Tiled(bs, lo, hi) && 0 < lo
    ensures bs != [] ==> Has(m, bs, |bs| - 1) && bs[|bs| - 1].addr != 0
  {
    if bs != [] { Inside(bs, lo, hi, |bs| - 1); }
  }

  lemma GrowHead(bs: seq<Block>, hi: nat, grow: nat)
    requires HEADER <= grow
    ensures AddrAt(Grow(bs, hi, grow), 0) == if bs == [] then hi else AddrAt(bs, 0)
  {
  }

  // -------------------------------------------------------------- whole runs

  /** kfree right after kmalloc restores the list that held after any growth. */
  method MallocFree(h: Heap, size: nat, granted: nat)
    requires h.Valid() && size < WORD
    modifies h`mem, h`head, h`committed, h`blocks
    ensures h.Valid() && h.blocks == Stocked(old(h.blocks), old(h.committed), h.committed)
  {
    hide Tiled, Linked, Merged, Fits, Release, AlignBytes, AlignPages, NoFit, Live, Clear;
    var answer, at, passes := h.KMalloc(size, granted);
    ghost var bs := Stocked(old(h.blocks), old(h.committed), h.committed);
    if answer.Pointer? {
      ReleaseTake(bs, at, AlignBytes(size));
      TakenAt(bs, at, AlignBytes(size));
      h.KFree(answer.ptr, at);
    }
  }

  lemma TakenAt(bs: seq<Block>, i: nat, n: nat)
    requires i < |bs|
    ensures var r := Take(bs, i, n); i < |r| && r[i] == Taken(bs[i], n)
  {
  }

  datatype Op = Malloc(size: nat, granted: nat) | Free(index: nat)

  ghost predicate Backs(b: Block, x: Held)
  {
    b.used && Payload(b) == x.ptr && x.size <= b.size
  }

  /** Every held pointer has a block in use of its own, and every block in use is
      held. */
  ghost predicate Holds(bs: seq<Block>, held: seq<Held>)
  {
    && (forall i :: 0 <= i < |held| ==> held[i].ptr != 0 && exists k :: 0 <= k < |bs| && Backs(bs[k], held[i]))
    && (forall i, j :: 0 <= i < j < |held| ==> held[i].ptr != held[j].ptr)
    && (forall b :: b in Live(bs) ==> exists i :: 0 <= i < |held| && Backs(b, held[i]))
  }

  /** Held regions never overlap. */
  lemma HeldApart(bs: seq<Block>, lo: nat, hi: nat, held: seq<Held>)
    requires Tiled(bs, lo, hi) && Holds(bs, held)
    ensures Disjoint(held)
  {
    forall i, j | 0 <= i < |held| && 0 <= j < |held| && i != j ensures Beside(held[i], held[j]) {
      var k :| 0 <= k < |bs| && Backs(bs[k], held[i]);
      var l :| 0 <= l < |bs| && Backs(bs[l], held[j]);
      assert held[i].ptr != held[j].ptr;
      if k != l { Distinct(bs, lo, hi, k, l); }
    }
  }

  lemma HoldsGrown(bs: seq<Block>, held: seq<Held>, end: nat, end': nat)
    requires Holds(bs, held)
    ensures Holds(Stocked(bs, end, end'), held)
  {
    if end' >= end + HEADER {
      LiveGrow(bs, end, end' - end);
      HoldsLive(bs, Stocked(bs, end, end'), held);
    }
  }

  lemma HoldsLive(bs: seq<Block>, bs': seq<Block>, held: seq<Held>)
    requires Holds(bs, held) && Live(bs') == Live(bs)
    ensures Holds(bs', held)
  {
    forall i | 0 <= i < |held| ensures held[i].ptr != 0 && exists k :: 0 <= k < |bs'| && Backs(bs'[k], held[i]) {
      var k :| 0 <= k < |bs| && Backs(bs[k], held[i]);
      assert bs[k] in Live(bs');
      var l :| 0 <= l < |bs'| && bs'[l] == bs[k];
      assert Backs(bs'[l], held[i]);
    }
  }

  lemma HoldsTake(bs: seq<Block>, lo: nat, hi: nat, held: seq<Held>, i: nat, n: nat, size: nat)
    requires Tiled(bs, lo, hi) && 0 < lo && Holds(bs, held) && i < |bs| && Fits(bs[i], n) && size <= n
    ensures Holds(Take(bs, i, n), held + [Held(Payload(bs[i]), size)])
  {
    hide Take;
    var r, x := Take(bs, i, n), Held(Payload(bs[i]), size);
    var held' := held + [x];
    LiveTake(bs, i, n);
    TakenAt(bs, i, n);
    assert Backs(r[i], x);
    forall k | 0 <= k < |held| ensures held[k].ptr != x.ptr && exists l :: 0 <= l < |r| && Backs(r[l], held[k]) {
      var l :| 0 <= l < |bs| && Backs(bs[l], held[k]);
      Distinct(bs, lo, hi, i, l);
      assert bs[l] in Live(r);
      var l' :| 0 <= l' < |r| && r[l'] == bs[l];
    }
    forall b | b in Live(r) ensures exists k :: 0 <= k < |held'| && Backs(b, held'[k]) {
      if b in Live(bs) {
        var k :| 0 <= k < |held| && Backs(b, held[k]);
        assert Backs(b, held'[k]);
      } else {
        assert Backs(b, held'[|held|]);
      }
    }
  }

  lemma HoldsRelease(bs: seq<Block>, lo: nat, hi: nat, held: seq<Held>, x: nat, i: nat)
    requires Tiled(bs, lo, hi) && Holds(bs, held) && i < |bs| && x < |held| && Backs(bs[i], held[x])
    ensures Holds(Release(bs, i), held[..x] + held[x + 1..])
  {
    hide Release;
    var r, held' := Release(bs, i), held[..x] + held[x + 1..];
    LiveRelease(bs, lo, hi, i);
    forall k | 0 <= k < |held'| ensures held'[k].ptr != 0 && exists l :: 0 <= l < |r| && Backs(r[l], held'[k]) {
      var o := if k < x then k else k + 1;
      assert held'[k] == held[o] && held[o].ptr != held[x].ptr;
      var l :| 0 <= l < |bs| && Backs(bs[l], held[o]);
      assert bs[l] in Live(r);
      var l' :| 0 <= l' < |r| && r[l'] == bs[l];
    }
    forall b | b in Live(r) ensures exists k :: 0 <= k < |held'| && Backs(b, held'[k]) {
      var k :| 0 <= k < |held| && Backs(b, held[k]);
      var l :| 0 <= l < |bs| && bs[l] == b;
      if k == x { Distinct(bs, lo, hi, i, l); }
      assert Backs(b, held'[if k < x then k else k - 1]);
    }
  }

  /** A pointer whose block does not back it is not held. */
  lemma NotHeld(bs: seq<Block>, lo: nat, hi: nat, held: seq<Held>, i: nat, x: Held)
    requires Tiled(bs, lo, hi) && i < |bs| && Payload(bs[i]) == x.ptr && !Backs(bs[i], x)
    ensures !Holds(bs, held + [x])
  {
    if Holds(bs, held + [x]) {
      assert (held + [x])[|held|] == x;
      var k :| 0 <= k < |bs| && Backs(bs[k], x);
      Distinct(bs, lo, hi, i, k);
    }
  }

  /** The list, the end of the heap, and what callers hold. */
  datatype View = View(bs: seq<Block>, end: nat, held: seq<Held>)

  ghost predicate MallocDid(l: Limits, v: View, size: nat, granted: nat, at: nat, answer: Answer, v': View)
  {
    && Answered(l, v.bs, v.end, size, granted, at, answer, v'.bs, v'.end)
    && v'.held == if answer.Pointer? then v.held + [Held(answer.ptr, size)] else v.held
  }

  ghost predicate FreeDid(v: View, x: nat, v': View)
  {
    if x >= |v.held| then v' == v
    else
      && v'.end == v.end && v'.held == v.held[..x] + v.held[x + 1..]
      && exists i: nat :: i < |v.bs| && Backs(v.bs[i], v.held[x]) && v'.bs == Release(v.bs, i)
  }

  /** What one call does to them. */
  ghost predicate Did(l: Limits, v: View, op: Op, v': View)
  {
    match op
    case Malloc(size, granted) => exists at: nat, answer :: MallocDid(l, v, size, granted, at, answer, v')
    case Free(x) => FreeDid(v, x, v')
  }

  /** The call does not return. */
  ghost predicate Hangs(l: Limits, v: View, op: Op)
  {
    op.Malloc? && Endless(l, v.bs, v.end, op.size)
  }

  /** The call hands out fewer bytes than were asked for. */
  ghost predicate Cheats(l: Limits, v: View, op: Op)
  {
    op.Malloc? && op.size > WORD - 16 && v.end <= l.ceiling && !Refused(l, v.bs, v.end, op.size, op.granted)
  }

  /** The states before, between and after the first `done` calls. */
  ghost predicate Traced(l: Limits, trace: seq<View>, ops: seq<Op>, done: nat)
  {
    && done <= |ops| && |trace| == done + 1
    && forall i :: 0 <= i < done ==> Did(l, trace[i], ops[i], trace[i + 1])
  }

  lemma TraceMore(l: Limits, trace: seq<View>, ops: seq<Op>, done: nat, v: View)
    requires done < |ops| && Traced(l, trace, ops, done) && Did(l, trace[done], ops[done], v)
    ensures Traced(l, trace + [v], ops, done + 1)
  {
    hide Did;
    var t := trace + [v];
    forall i | 0 <= i < done + 1 ensures Did(l, t[i], ops[i], t[i + 1]) {
      if i < done { assert Did(l, trace[i], ops[i], trace[i + 1]); }
    }
  }

  predicate ValidOp(op: Op)
  {
    op.Malloc? ==> op.size < WORD
  }

  /** No request of the run wraps before the end of the reserved range. */
  predicate Modest(l: Limits, op: Op)
  {
    op.Malloc? ==> op.size + 4144 + l.reserved <= WORD
  }

  /** One call by callers that hold `held`. */
  method Call(h: Heap, held: seq<Held>, op: Op) returns (held': seq<Held>, hung: bool, cheated: bool)
    requires h.Valid() && Holds(h.blocks, held) && ValidOp(op)
    modifies h`mem, h`head, h`committed, h`blocks
    ensures h.Valid() && (Holds(h.blocks, held') <==> !cheated)
    ensures Did(h.limits, View(old(h.blocks), old(h.committed), held), op, View(h.blocks, h.committed, held'))
    ensures hung <==> Hangs(h.limits, View(old(h.blocks), old(h.committed), held), op)
    ensures cheated <==> Cheats(h.limits, View(old(h.blocks), old(h.committed), held), op)
    ensures old(h.committed) <= h.limits.reserved && Modest(h.limits, op) ==> h.committed <= h.limits.reserved
  {
    hide Tiled, Linked, Merged, Release, Take, AlignBytes, AlignPages, NoFit, FirstFit, Live, Clear, Holds, Fits;
    hide Growth, Stocked, Refused, Endless, LongSearch;
    held', hung, cheated := held, false, false;
    ghost var bs, end := h.blocks, h.committed;
    match op
    case Malloc(size, granted) =>
      var answer, at, passes := h.KMalloc(size, granted);
      HoldsGrown(bs, held, end, h.committed);
      if Modest(h.limits, op) && end <= h.limits.reserved { NoWrapStays(h.limits, bs, end, size, granted); }
      hung := answer.Never?;
      cheated := size > WORD - 16 && answer.Pointer?;
      if size > WORD - 16 { NotEndless(h.limits, bs, end, size); }
      if answer.Pointer? {
        held' := held + [Held(answer.ptr, size)];
        ghost var stock := Stocked(bs, end, h.committed);
        FitOrNot(stock, AlignBytes(size), at);
        AlignedEnough(size);
        if cheated {
          TakenAt(stock, at, AlignBytes(size));
          NotHeld(h.blocks, h.start, h.committed, held, at, Held(answer.ptr, size));
        } else {
          HoldsTake(stock, h.start, h.committed, held, at, AlignBytes(size), size);
        }
      }
      assert MallocDid(h.limits, View(bs, end, held), size, granted, at, answer, View(h.blocks, h.committed, held'));
    case Free(x) =>
      if x < |held| {
        ghost var i := BlockOf(h.blocks, held, x);
        HoldsRelease(h.blocks, h.start, h.committed, held, x, i);
        h.KFree(held[x].ptr, i);
        held' := held[..x] + held[x + 1..];
      }
  }

  lemma NotEndless(l: Limits, bs: seq<Block>, end: nat, size: nat)
    requires size > WORD - 16
    ensures !Endless(l, bs, end, size)
  {
  }

  /** Any run of kmalloc and kfree, whatever growth succeeds, follows the calls one by
      one, up to the first that does not return or hands out too little. The heap
      stays tiled, linked and merged; held regions are disjoint and a block is in use
      exactly while a caller holds it, exactly unless the last call handed out too
      little. Requests up to 2^64 - 4144 are never of either kind. */
  method Run(h: Heap, ops: seq<Op>)
    returns (held: seq<Held>, done: nat, hung: bool, cheated: bool, ghost trace: seq<View>)
    requires h.Valid() && h.blocks == [] && forall i :: 0 <= i < |ops| ==> ValidOp(ops[i])
    modifies h`mem, h`head, h`committed, h`blocks
    ensures h.Valid() && Traced(h.limits, trace, ops, done)
    ensures trace[0] == View([], old(h.committed), []) && trace[done] == View(h.blocks, h.committed, held)
    ensures hung <==> 0 < done && Hangs(h.limits, trace[done - 1], ops[done - 1])
    ensures cheated <==> 0 < done && Cheats(h.limits, trace[done - 1], ops[done - 1])
    ensures !hung && !cheated ==> done == |ops|
    ensures Holds(h.blocks, held) <==> !cheated
    ensures !cheated ==> Disjoint(held)
    ensures (forall i :: 0 <= i < |ops| && ops[i].Malloc? ==> ops[i].size <= WORD - 4144) ==> !hung && !cheated
    ensures old(h.committed) <= h.limits.reserved && (forall i :: 0 <= i < |ops| ==> Modest(h.limits, ops[i])) ==>
              h.committed <= h.limits.reserved
  {
    hide Tiled, Linked, Merged, Did, Traced, Holds, Modest, Endless, Refused;
    held, done, hung, cheated := [], 0, false, false;
    trace := [View([], h.committed, [])];
    NothingHeld();
    NoTrace(h.limits, trace, ops);
    while done < |ops|
      invariant done <= |ops| && h.Valid() && Holds(h.blocks, held) && !hung && !cheated
      invariant |trace| == done + 1 && Traced(h.limits, trace, ops, done)
      invariant trace[0] == View([], old(h.committed), []) && trace[done] == View(h.blocks, h.committed, held)
      invariant 0 < done ==> !Hangs(h.limits, trace[done - 1], ops[done - 1])
      invariant 0 < done ==> !Cheats(h.limits, trace[done - 1], ops[done - 1])
      invariant old(h.committed) <= h.limits.reserved && (forall i :: 0 <= i < |ops| ==> Modest(h.limits, ops[i])) ==>
                  h.committed <= h.limits.reserved
    {
      SmallIsFine(h.limits, View(h.blocks, h.committed, held), ops[done]);
      held, hung, cheated := Call(h, held, ops[done]);
      TraceMore(h.limits, trace, ops, done, View(h.blocks, h.committed, held));
      trace := trace + [View(h.blocks, h.committed, held)];
      done := done + 1;
      if hung || cheated {
        if !cheated { HeldApart(h.blocks, h.start, h.committed, held); }
        return;
      }
    }
    HeldApart(h.blocks, h.start, h.committed, held);
  }

  lemma SmallIsFine(l: Limits, v: View, op: Op)
    ensures op.Malloc? && op.size <= WORD - 4144 ==> !Hangs(l, v, op) && !Cheats(l, v, op)
  {
  }

  lemma NoTrace(l: Limits, trace: seq<View>, ops: seq<Op>)
    requires |trace| == 1
    ensures Traced(l, trace, ops, 0)
  {
  }

  lemma NothingHeld()
    ensures Holds([], [])
  {
  }

  ghost function BlockOf(bs: seq<Block>, held: seq<Held>, x: nat): (k: nat)
    requires Holds(bs, held) && x < |held|
    ensures k < |bs| && Backs(bs[k], held[x]) && held[x].ptr != 0
  {
    var k :| 0 <= k < |bs| && Backs(bs[k], held[x]);
    k
  }
}
