/** The block list of kernel/memory/heap.c as a value: blocks that tile the
    committed heap, and what taking, growing and releasing do to them. */
module HeapList {
  import opened Blocks

  const HEADER: nat := 48
  const PAGE: nat := 4096

  function End(b: Block): nat
  {
    b.addr + HEADER + b.size
  }

  function Payload(b: Block): nat
  {
    b.addr + HEADER
  }

  predicate Adjacent(bs: seq<Block>, i: nat)
    requires i + 1 < |bs|
  {
    End(bs[i]) == bs[i + 1].addr
  }

  predicate Aligned(b: Block)
  {
    b.addr % 16 == 0 && b.size % 16 == 0
  }

  /** The blocks cover `lo` to `hi` without gap or overlap. */
  ghost predicate Tiled(bs: seq<Block>, lo: nat, hi: nat)
  {
    && (if bs == [] then lo == hi else bs[0].addr == lo && End(bs[|bs| - 1]) == hi)
    && (forall i :: 0 <= i < |bs| ==> Aligned(bs[i]))
    && (forall i: nat :: i + 1 < |bs| ==> Adjacent(bs, i))
  }

  lemma {:induction false} Ordered(bs: seq<Block>, lo: nat, hi: nat, i: nat, j: nat)
    requires Tiled(bs, lo, hi) && i < j < |bs|
    ensures End(bs[i]) <= bs[j].addr
    decreases j - i
  {
    assert Adjacent(bs, j - 1);
    if i + 1 == j {
    } else {
      Ordered(bs, lo, hi, i, j - 1);
    }
  }

  lemma Inside(bs: seq<Block>, lo: nat, hi: nat, i: nat)
    requires Tiled(bs, lo, hi) && i < |bs|
    ensures lo <= bs[i].addr < End(bs[i]) <= hi
  {
    if 0 < i { Ordered(bs, lo, hi, 0, i); }
    if i < |bs| - 1 { Ordered(bs, lo, hi, i, |bs| - 1); }
  }

  lemma Distinct(bs: seq<Block>, lo: nat, hi: nat, i: nat, j: nat)
    requires Tiled(bs, lo, hi) && i < |bs| && j < |bs| && i != j
    ensures End(bs[i]) <= bs[j].addr || End(bs[j]) <= bs[i].addr
    ensures bs[i].addr != bs[j].addr
  {
    if i < j { Ordered(bs, lo, hi, i, j); } else { Ordered(bs, lo, hi, j, i); }
  }

  /** Everything kheap_verify asserts about the list. */
  ghost predicate Good(bs: seq<Block>, lo: nat, hi: nat)
  {
    Tiled(bs, lo, hi) && Merged(bs)
  }

  // ---------------------------------------------------------------- taking

  predicate Splits(b: Block, n: nat)
  {
    b.size >= n + HEADER + 16
  }

  function Taken(b: Block, n: nat): Block
  {
    Block(b.addr, if Splits(b, n) then n else b.size, true)
  }

  function Rest(b: Block, n: nat): Block
    requires Splits(b, n)
  {
    Block(b.addr + HEADER + n, b.size - n - HEADER, false)
  }

  /** Block `i` becomes used for `n` bytes; what is left over becomes a free block
      when it can hold a header and 16 bytes. */
  function Take(bs: seq<Block>, i: nat, n: nat): seq<Block>
    requires i < |bs|
  {
    if Splits(bs[i], n) then bs[..i] + [Taken(bs[i], n), Rest(bs[i], n)] + bs[i + 1..]
    else bs[i := Taken(bs[i], n)]
  }

  lemma TakeGood(bs: seq<Block>, lo: nat, hi: nat, i: nat, n: nat)
    requires Good(bs, lo, hi) && i < |bs| && Fits(bs[i], n) && n % 16 == 0
    ensures Good(Take(bs, i, n), lo, hi)
  {
    var r := Take(bs, i, n);
    if Splits(bs[i], n) {
      forall j: nat | j + 1 < |r| ensures Adjacent(r, j) && Apart(r, j) {
        if j + 1 < i { assert Adjacent(bs, j) && Apart(bs, j); }
        else if j + 1 == i { assert Adjacent(bs, j) && Apart(bs, j); }
        else if j == i + 1 { assert Adjacent(bs, i) && Apart(bs, i); }
        else if j > i + 1 { assert Adjacent(bs, j - 1) && Apart(bs, j - 1); }
      }
    } else {
      forall j: nat | j + 1 < |r| ensures Adjacent(r, j) && Apart(r, j) {
        assert Adjacent(bs, j) && Apart(bs, j);
      }
    }
  }

  // --------------------------------------------------------------- growing

  /** `grow` more bytes at the end: a free last block gets longer, otherwise a
      new free block follows. */
  function Grow(bs: seq<Block>, hi: nat, grow: nat): seq<Block>
    requires HEADER <= grow
  {
    if bs != [] && !bs[|bs| - 1].used then bs[|bs| - 1 := bs[|bs| - 1].(size := bs[|bs| - 1].size + grow)]
    else bs + [Block(hi, grow - HEADER, false)]
  }

  lemma GrowGood(bs: seq<Block>, lo: nat, hi: nat, grow: nat)
    requires Good(bs, lo, hi) && lo % 16 == 0 && grow % PAGE == 0 && 0 < grow
    ensures Good(Grow(bs, hi, grow), lo, hi + grow)
  {
    var r := Grow(bs, hi, grow);
    EndAligned(bs, lo, hi);
    GrowAt(bs, hi, grow);
    GrownAligned(bs, hi, grow);
    hide Grow, Aligned;
    forall j: nat | j + 1 < |r| ensures Adjacent(r, j) && Apart(r, j) {
      if j + 1 < |bs| { assert Adjacent(bs, j) && Apart(bs, j); }
    }
  }

  lemma GrownAligned(bs: seq<Block>, hi: nat, grow: nat)
    requires (forall j :: 0 <= j < |bs| ==> Aligned(bs[j])) && hi % 16 == 0 && grow % PAGE == 0 && 0 < grow
    ensures forall j :: 0 <= j < |Grow(bs, hi, grow)| ==> Aligned(Grow(bs, hi, grow)[j])
  {
    GrowAt(bs, hi, grow);
    var r := Grow(bs, hi, grow);
    hide Grow, Aligned;
    forall j | 0 <= j < |r| ensures Aligned(r[j]) {
      if j == |bs| { NewAligned(hi, grow); } else if j == |bs| - 1 { MoreAligned(bs[j], grow); }
    }
  }

  lemma NewAligned(hi: nat, grow: nat)
    requires hi % 16 == 0 && grow % PAGE == 0 && 0 < grow
    ensures Aligned(Block(hi, grow - HEADER, false))
  {
    assert grow == grow / 4096 * 256 * 16;
  }

  lemma MoreAligned(b: Block, grow: nat)
    requires Aligned(b) && grow % PAGE == 0
    ensures Aligned(Block(b.addr, b.size + grow, false))
  {
    assert grow == grow / 4096 * 256 * 16;
  }

  lemma GrowAt(bs: seq<Block>, hi: nat, grow: nat)
    requires HEADER <= grow
    ensures var r, n := Grow(bs, hi, grow), |bs|;
            if n > 0 && !bs[n - 1].used then
              && |r| == n && (forall j :: 0 <= j < n - 1 ==> r[j] == bs[j])
              && r[n - 1] == Block(bs[n - 1].addr, bs[n - 1].size + grow, false)
            else |r| == n + 1 && (forall j :: 0 <= j < n ==> r[j] == bs[j]) && r[n] == Block(hi, grow - HEADER, false)
  {
  }

  lemma EndAligned(bs: seq<Block>, lo: nat, hi: nat)
    requires Tiled(bs, lo, hi) && lo % 16 == 0
    ensures hi % 16 == 0
  {
    if bs != [] {
      var b := bs[|bs| - 1];
      assert Aligned(b) && hi == b.addr + 48 + b.size;
      hide Tiled, Aligned;
      Sum16(b.addr, b.size);
    }
  }

  lemma Sum16(a: nat, b: nat)
    requires a % 16 == 0 && b % 16 == 0
    ensures (a + 48 + b) % 16 == 0
  {
  }

  /** After growing by a whole request the last block fits it, and it is the
      first that does. */
  lemma GrownFits(bs: seq<Block>, hi: nat, grow: nat, n: nat)
    requires NoFit(bs, n) && grow >= HEADER + n
    ensures Grow(bs, hi, grow) != [] && FirstFit(Grow(bs, hi, grow), n, |Grow(bs, hi, grow)| - 1)
  {
    var r := Grow(bs, hi, grow);
    forall j | 0 <= j < |r| - 1 ensures !Fits(r[j], n) { assert r[j] == bs[j]; }
  }

  /** Growing twice is growing once by the sum. */
  lemma GrowTwice(bs: seq<Block>, hi: nat, g: nat, g': nat)
    requires HEADER <= g && HEADER <= g'
    ensures Grow(Grow(bs, hi, g), hi + g, g') == Grow(bs, hi, g + g')
  {
  }

  // ------------------------------------------------------------- releasing

  function Absorb(bs: seq<Block>, i: nat): (r: seq<Block>)
    requires i + 1 < |bs|
    ensures |r| == |bs| - 1 && r[i].addr == bs[i].addr && forall j :: 0 <= j < i ==> r[j] == bs[j]
  {
    bs[..i] + [Block(bs[i].addr, bs[i].size + HEADER + bs[i + 1].size, bs[i].used)] + bs[i + 2..]
  }

  function MergeNext(bs: seq<Block>, i: nat): (r: seq<Block>)
    requires i < |bs|
    ensures i < |r|
  {
    if i + 1 < |bs| && !bs[i + 1].used then Absorb(bs, i) else bs
  }

  function MergePrev(bs: seq<Block>, i: nat): seq<Block>
    requires i < |bs|
  {
    if 0 < i && !bs[i - 1].used then Absorb(bs, i - 1) else bs
  }

  /** Block `i` becomes free and merges with its free neighbours. */
  function Release(bs: seq<Block>, i: nat): seq<Block>
    requires i < |bs|
  {
    MergePrev(MergeNext(FreedAt(bs, i), i), i)
  }

  /** Neighbours are merged, except perhaps those of block `i`. */
  ghost predicate MergedBut(bs: seq<Block>, i: nat)
  {
    forall j: nat :: j + 1 < |bs| && j != i && j + 1 != i ==> Apart(bs, j)
  }

  lemma AbsorbTiled(bs: seq<Block>, lo: nat, hi: nat, i: nat)
    requires Tiled(bs, lo, hi) && i + 1 < |bs|
    ensures Tiled(Absorb(bs, i), lo, hi)
  {
    var r := Absorb(bs, i);
    assert Adjacent(bs, i);
    forall j: nat | j + 1 < |r| ensures Adjacent(r, j) {
      if j < i { assert Adjacent(bs, j); } else { assert Adjacent(bs, j + 1); }
    }
  }

  lemma ReleaseGood(bs: seq<Block>, lo: nat, hi: nat, i: nat)
    requires Good(bs, lo, hi) && i < |bs| && bs[i].used
    ensures Good(Release(bs, i), lo, hi)
  {
    var a := FreedAt(bs, i);
    forall j: nat | j + 1 < |a| ensures Adjacent(a, j) { assert Adjacent(bs, j); }
    forall j: nat | j + 1 < |a| && j != i && j + 1 != i ensures Apart(a, j) { assert Apart(bs, j); }
    assert Tiled(a, lo, hi);
    NextMerged(bs, a, lo, hi, i);
    PrevMerged(MergeNext(a, i), lo, hi, i);
  }

  lemma NextMerged(bs: seq<Block>, a: seq<Block>, lo: nat, hi: nat, i: nat)
    requires Merged(bs) && i < |bs| && a == FreedAt(bs, i) && Tiled(a, lo, hi) && MergedBut(a, i)
    ensures var b := MergeNext(a, i);
            Tiled(b, lo, hi) && !b[i].used && MergedBut(b, i) && (i + 1 < |b| ==> b[i + 1].used)
  {
    var b := MergeNext(a, i);
    if i + 1 < |a| && !a[i + 1].used {
      AbsorbTiled(a, lo, hi, i);
      if i + 2 < |a| { assert Apart(bs, i + 1); }
      forall j: nat | j + 1 < |b| && j != i && j + 1 != i ensures Apart(b, j) {
        if j < i { assert Apart(a, j); } else { assert Apart(a, j + 1); }
      }
    }
  }

  lemma PrevMerged(b: seq<Block>, lo: nat, hi: nat, i: nat)
    requires Tiled(b, lo, hi) && i < |b| && !b[i].used && MergedBut(b, i) && (i + 1 < |b| ==> b[i + 1].used)
    ensures Good(MergePrev(b, i), lo, hi)
  {
    var c := MergePrev(b, i);
    if 0 < i && !b[i - 1].used {
      AbsorbTiled(b, lo, hi, i - 1);
      forall j: nat | j + 1 < |c| ensures Apart(c, j) {
        if j + 1 < i - 1 || j + 1 == i - 1 { assert Apart(b, j); } else if j > i - 1 { assert Apart(b, j + 1); }
      }
    } else {
      forall j: nat | j + 1 < |c| ensures Apart(c, j) {
        if j != i && j + 1 != i { assert Apart(b, j); }
      }
    }
  }

  /** Releasing a block just taken restores the list. */
  lemma ReleaseTake(bs: seq<Block>, i: nat, n: nat)
    requires Merged(bs) && i < |bs| && Fits(bs[i], n)
    ensures i < |Take(bs, i, n)| && Release(Take(bs, i, n), i) == bs
  {
    var t := Take(bs, i, n);
    if 0 < i { assert Apart(bs, i - 1); }
    if i + 1 < |bs| { assert Apart(bs, i); }
    var a := FreedAt(t, i);
    if Splits(bs[i], n) {
      assert MergeNext(a, i) == bs;
    } else {
      assert a == bs;
    }
  }

  // ------------------------------------------------------------- live blocks

  /** Taking adds the one block and touches no other block in use. */
  lemma LiveTake(bs: seq<Block>, i: nat, n: nat)
    requires i < |bs| && Fits(bs[i], n)
    ensures Live(Take(bs, i, n)) == Live(bs) + {Taken(bs[i], n)}
  {
    var r := Take(bs, i, n);
    assert r[i] == Taken(bs[i], n);
    forall b | b in Live(bs) ensures b in r {
      var j :| 0 <= j < |bs| && bs[j] == b;
      assert j != i;
      if Splits(bs[i], n) && j > i { assert r[j + 1] == b; } else { assert r[j] == b; }
    }
    forall b | b in Live(r) ensures b in Live(bs) + {Taken(bs[i], n)} {
      var j :| 0 <= j < |r| && r[j] == b;
    }
  }

  lemma LiveGrow(bs: seq<Block>, hi: nat, grow: nat)
    requires HEADER <= grow
    ensures Live(Grow(bs, hi, grow)) == Live(bs)
  {
    var r := Grow(bs, hi, grow);
    forall b | b in Live(bs) ensures b in r {
      var j :| 0 <= j < |bs| && bs[j] == b;
      assert r[j] == b;
    }
  }

  lemma LiveAbsorb(bs: seq<Block>, i: nat)
    requires i + 1 < |bs| && !bs[i].used && !bs[i + 1].used
    ensures Live(Absorb(bs, i)) == Live(bs)
  {
    var r := Absorb(bs, i);
    forall b | b in Live(bs) ensures b in r {
      var j :| 0 <= j < |bs| && bs[j] == b;
      if j < i { assert r[j] == b; } else { assert r[j - 1] == b; }
    }
  }

  /** Releasing removes the one block. */
  lemma LiveRelease(bs: seq<Block>, lo: nat, hi: nat, i: nat)
    requires Tiled(bs, lo, hi) && i < |bs| && bs[i].used
    ensures Live(Release(bs, i)) == Live(bs) - {bs[i]}
  {
    var a := FreedAt(bs, i);
    forall b | b in Live(bs) && b != bs[i] ensures b in a {
      var j :| 0 <= j < |bs| && bs[j] == b;
      assert a[j] == b;
    }
    forall b | b in Live(a) ensures b in Live(bs) && b != bs[i] {
      var j :| 0 <= j < |a| && a[j] == b;
      Distinct(bs, lo, hi, i, j);
    }
    var b := MergeNext(a, i);
    if i + 1 < |a| && !a[i + 1].used { LiveAbsorb(a, i); }
    if 0 < i && !b[i - 1].used { LiveAbsorb(b, i - 1); }
  }

  // -------------------------------------------------------------- accounting

  function Allocated(bs: seq<Block>): nat
  {
    if bs == [] then 0 else Allocated(bs[..|bs| - 1]) + if bs[|bs| - 1].used then bs[|bs| - 1].size else 0
  }

  function FreeBytes(bs: seq<Block>): nat
  {
    if bs == [] then 0 else FreeBytes(bs[..|bs| - 1]) + if bs[|bs| - 1].used then 0 else bs[|bs| - 1].size
  }

  function FreeCount(bs: seq<Block>): nat
  {
    if bs == [] then 0 else FreeCount(bs[..|bs| - 1]) + if bs[|bs| - 1].used then 0 else 1
  }

  /** Every committed byte is a header, allocated or free. */
  lemma {:induction false} Accounting(bs: seq<Block>, lo: nat, hi: nat)
    requires Tiled(bs, lo, hi)
    ensures Allocated(bs) + FreeBytes(bs) + HEADER * |bs| == hi - lo
  {
    if bs == [] {
    } else {
      var n := |bs| - 1;
      if n > 0 { assert Adjacent(bs, n - 1); }
      forall i: nat | i + 1 < n ensures Adjacent(bs[..n], i) { assert Adjacent(bs, i); }
      Accounting(bs[..n], lo, bs[n].addr);
    }
  }

  lemma {:induction false} SumsOf(a: seq<Block>, b: seq<Block>)
    ensures Allocated(a + b) == Allocated(a) + Allocated(b) && FreeBytes(a + b) == FreeBytes(a) + FreeBytes(b)
    ensures FreeCount(a + b) == FreeCount(a) + FreeCount(b)
    decreases |b|
  {
    if b == [] {
      assert a + b == a;
    } else {
      var n := |b| - 1;
      assert (a + b)[..|a| + n] == a + b[..n];
      SumsOf(a, b[..n]);
    }
  }

  lemma SumsOfOne(b: Block)
    ensures Allocated([b]) == (if b.used then b.size else 0) && FreeBytes([b]) == (if b.used then 0 else b.size)
    ensures FreeCount([b]) == if b.used then 0 else 1
  {
    assert [b][..0] == [];
  }

  /** The sums of a list cut at block `i`. */
  lemma SumsAt(bs: seq<Block>, i: nat)
    requires i < |bs|
    ensures Allocated(bs) == Allocated(bs[..i]) + Allocated(bs[i + 1..]) + if bs[i].used then bs[i].size else 0
    ensures FreeBytes(bs) == FreeBytes(bs[..i]) + FreeBytes(bs[i + 1..]) + if bs[i].used then 0 else bs[i].size
    ensures FreeCount(bs) == FreeCount(bs[..i]) + FreeCount(bs[i + 1..]) + if bs[i].used then 0 else 1
  {
    hide Allocated, FreeBytes, FreeCount;
    assert bs == bs[..i] + ([bs[i]] + bs[i + 1..]);
    SumsOf(bs[..i], [bs[i]] + bs[i + 1..]);
    SumsOf([bs[i]], bs[i + 1..]);
    SumsOfOne(bs[i]);
  }

  /** What taking block `i` for `n` bytes leaves: a block of at least 64 bytes more is
      split, with a free block of what is left behind its new header. */
  lemma TakeMeans(bs: seq<Block>, i: nat, n: nat)
    requires i < |bs| && Fits(bs[i], n)
    ensures var r, b := Take(bs, i, n), bs[i];
            if b.size - n >= 64 then
              r == bs[..i] + [Block(b.addr, n, true), Block(b.addr + 48 + n, b.size - n - 48, false)] + bs[i + 1..]
            else r == bs[..i] + [Block(b.addr, b.size, true)] + bs[i + 1..]
  {
  }

  /** What it does to the statistics. */
  lemma TakeSums(bs: seq<Block>, i: nat, n: nat)
    requires i < |bs| && Fits(bs[i], n)
    ensures var r, b := Take(bs, i, n), bs[i];
            && Allocated(r) == Allocated(bs) + (if b.size - n >= 64 then n else b.size)
            && FreeBytes(r) == FreeBytes(bs) - (if b.size - n >= 64 then n + 48 else b.size)
            && FreeCount(r) == FreeCount(bs) - (if b.size - n >= 64 then 0 else 1)
  {
    hide Allocated, FreeBytes, FreeCount;
    var b, r := bs[i], Take(bs, i, n);
    SumsAt(bs, i);
    SumsAt(r, i);
    assert r[..i] == bs[..i];
    if b.size - n >= 64 {
      var rest := Rest(b, n);
      assert r[i + 1..] == [rest] + bs[i + 1..];
      SumsOf([rest], bs[i + 1..]);
      SumsOfOne(rest);
    } else {
      assert r[i + 1..] == bs[i + 1..];
    }
  }

  /** What releasing block `i` leaves: one free block in place of it and its free
      neighbours, with the headers in between. */
  lemma ReleaseMeans(bs: seq<Block>, i: nat)
    requires i < |bs|
    ensures var before, after := i > 0 && !bs[i - 1].used, i + 1 < |bs| && !bs[i + 1].used;
            var lo, hi := if before then i - 1 else i, if after then i + 2 else i + 1;
            var size := bs[i].size + (if before then bs[i - 1].size + 48 else 0)
                        + (if after then bs[i + 1].size + 48 else 0);
            Release(bs, i) == bs[..lo] + [Block(bs[lo].addr, size, false)] + bs[hi..]
  {
    var a := FreedAt(bs, i);
    var b := MergeNext(a, i);
    if i + 1 < |bs| && !bs[i + 1].used {
      assert b == bs[..i] + [Block(bs[i].addr, bs[i].size + 48 + bs[i + 1].size, false)] + bs[i + 2..];
    } else {
      assert b == bs[..i] + [Block(bs[i].addr, bs[i].size, false)] + bs[i + 1..];
    }
    assert forall j :: 0 <= j < i ==> b[j] == bs[j];
  }

  /** What it does to the statistics: every header it removes becomes free bytes. */
  lemma ReleaseSums(bs: seq<Block>, i: nat)
    requires i < |bs| && bs[i].used
    ensures |Release(bs, i)| == |bs| - (if i > 0 && !bs[i - 1].used then 1 else 0)
                                - (if i + 1 < |bs| && !bs[i + 1].used then 1 else 0)
    ensures Allocated(Release(bs, i)) == Allocated(bs) - bs[i].size
    ensures FreeBytes(Release(bs, i)) == FreeBytes(bs) + bs[i].size + 48 * (|bs| - |Release(bs, i)|)
    ensures FreeCount(Release(bs, i)) == FreeCount(bs) + 1 - (|bs| - |Release(bs, i)|)
  {
    hide Allocated, FreeBytes, FreeCount, Release;
    ReleaseMeans(bs, i);
    var before, after := i > 0 && !bs[i - 1].used, i + 1 < |bs| && !bs[i + 1].used;
    var lo := if before then i - 1 else i;
    var hi := if after then i + 2 else i + 1;
    var r := Release(bs, i);
    SumsAt(r, lo);
    assert r[..lo] == bs[..lo] && r[lo + 1..] == bs[hi..];
    SumsAt(bs, i);
    if before {
      SumsAt(bs[..i], i - 1);
      assert bs[..i][..i - 1] == bs[..lo] && bs[..i][i..] == [];
      NoSums();
    }
    if after {
      SumsAt(bs[i + 1..], 0);
      assert bs[i + 1..][..0] == [] && bs[i + 1..][1..] == bs[hi..];
      NoSums();
    }
  }

  lemma NoSums()
    ensures Allocated([]) == 0 && FreeBytes([]) == 0 && FreeCount([]) == 0
  {
  }

  /** Growing adds its bytes to the free ones, less the header of a new block. */
  lemma GrowSums(bs: seq<Block>, hi: nat, grow: nat)
    requires HEADER <= grow
    ensures Allocated(Grow(bs, hi, grow)) == Allocated(bs)
    ensures FreeBytes(Grow(bs, hi, grow)) ==
              FreeBytes(bs) + grow - if bs != [] && !bs[|bs| - 1].used then 0 else 48
  {
    var r := Grow(bs, hi, grow);
    if bs != [] && !bs[|bs| - 1].used {
      assert r[..|r| - 1] == bs[..|bs| - 1];
    } else {
      assert r[..|r| - 1] == bs;
    }
  }
}
