/** user/libkryos/alloc.c: malloc by first fit with splitting over a singly linked
    list that reaches from the first block to the break, and free with a sweep over
    the whole list that joins neighbouring free blocks. */
module UserAlloc {
  import opened Blocks

  const HEADER: nat := 24
  const PAGE: nat := 4096

  function End(b: Block): nat
  {
    b.addr + b.size
  }

  predicate Sized(b: Block)
  {
    b.size % 16 == 0 && HEADER < b.size
  }

  predicate Meets(bs: seq<Block>, i: nat)
    requires i + 1 < |bs|
  {
    End(bs[i]) == bs[i + 1].addr
  }

  /** The blocks fill the heap from `lo` to the break `hi`. */
  ghost predicate Filled(bs: seq<Block>, lo: nat, hi: nat)
  {
    && (if bs == [] then lo == hi else bs[0].addr == lo && End(bs[|bs| - 1]) == hi)
    && (forall i :: 0 <= i < |bs| ==> Sized(bs[i]))
    && (forall i: nat :: i + 1 < |bs| ==> Meets(bs, i))
  }

  lemma {:induction false} Ordered(bs: seq<Block>, lo: nat, hi: nat, i: nat, j: nat)
    requires Filled(bs, lo, hi) && i < j < |bs|
    ensures End(bs[i]) <= bs[j].addr
    decreases j - i
  {
    assert Meets(bs, j - 1);
    if i + 1 == j {
    } else {
      Ordered(bs, lo, hi, i, j - 1);
    }
  }

  lemma Within(bs: seq<Block>, lo: nat, hi: nat, i: nat)
    requires Filled(bs, lo, hi) && i < |bs|
    ensures lo <= bs[i].addr < End(bs[i]) <= hi
  {
    if 0 < i { Ordered(bs, lo, hi, 0, i); }
    if i < |bs| - 1 { Ordered(bs, lo, hi, i, |bs| - 1); }
  }

  lemma Separate(bs: seq<Block>, lo: nat, hi: nat, i: nat, j: nat)
    requires Filled(bs, lo, hi) && i < |bs| && j < |bs| && i != j
    ensures End(bs[i]) <= bs[j].addr || End(bs[j]) <= bs[i].addr
    ensures bs[i].addr != bs[j].addr
  {
    if i < j { Ordered(bs, lo, hi, i, j); } else { Ordered(bs, lo, hi, j, i); }
  }

  // ---------------------------------------------------------------- requests

  function Total(size: nat): nat
  {
    ((size + HEADER) % WORD + 15) % WORD / 16 * 16
  }

  /** The block asked for holds the request exactly for sizes up to 2^64 - 40. */
  lemma TotalEnough(size: nat)
    requires size < WORD
    ensures Total(size) >= size + HEADER <==> size <= WORD - 40
  {
  }

  /** It is the request and the header of 24 bytes, rounded up to a multiple of 16. */
  lemma TotalMeans(size: nat)
    requires size <= WORD - 40
    ensures Total(size) % 16 == 0 && size + 24 <= Total(size) < size + 40
  {
    assert Total(size) == (size + 39) / 16 * 16;
  }

  lemma TotalSized(size: nat)
    requires 0 < size <= WORD - 40
    ensures Total(size) % 16 == 0 && HEADER < Total(size)
  {
  }

  // ------------------------------------------------------------------ malloc

  predicate Splits(b: Block, n: nat)
  {
    b.size >= n + HEADER + 16
  }

  function Taken(b: Block, n: nat): Block
  {
    Block(b.addr, if Splits(b, n) then n else b.size, true)
  }

  function Rest(b: Block, n: nat): Block
    requires Splits(b, n)
  {
    Block(b.addr + n, b.size - n, false)
  }

  function Take(bs: seq<Block>, i: nat, n: nat): seq<Block>
    requires i < |bs|
  {
    if Splits(bs[i], n) then bs[..i] + [Taken(bs[i], n), Rest(bs[i], n)] + bs[i + 1..]
    else bs[i := Taken(bs[i], n)]
  }

  /** What taking block `i` leaves: a block of at least 40 bytes more is split in two. */
  lemma TakeMeans(bs: seq<Block>, i: nat, n: nat)
    requires i < |bs| && Fits(bs[i], n)
    ensures var r, b := Take(bs, i, n), bs[i];
            if b.size - n >= 40 then
              r == bs[..i] + [Block(b.addr, n, true), Block(b.addr + n, b.size - n, false)] + bs[i + 1..]
            else r == bs[..i] + [Block(b.addr, b.size, true)] + bs[i + 1..]
  {
  }

  lemma TakeAt(bs: seq<Block>, i: nat, n: nat)
    requires i < |bs| && Fits(bs[i], n)
    ensures var r, b := Take(bs, i, n), bs[i];
            && |r| == |bs| + (if Splits(b, n) then 1 else 0) && r[i] == Taken(b, n)
            && (Splits(b, n) ==> r[i + 1] == Rest(b, n))
            && (forall j: nat :: j < i ==> r[j] == bs[j])
            && (forall j: nat :: i + 1 < j < |r| && Splits(b, n) ==> r[j] == bs[j - 1])
            && (forall j: nat :: i < j < |bs| && !Splits(b, n) ==> r[j] == bs[j])
  {
  }

  lemma TakeGood(bs: seq<Block>, lo: nat, hi: nat, i: nat, n: nat)
    requires Filled(bs, lo, hi) && Merged(bs) && i < |bs| && Fits(bs[i], n) && n % 16 == 0 && HEADER < n
    ensures Filled(Take(bs, i, n), lo, hi) && Merged(Take(bs, i, n))
  {
    var r := Take(bs, i, n);
    TakeAt(bs, i, n);
    assert Sized(bs[i]);
    hide Take;
    forall j: nat | j + 1 < |r| ensures Meets(r, j) && Apart(r, j) {
      if j < i || !Splits(bs[i], n) {
        assert Meets(bs, j) && Apart(bs, j);
      } else if j > i {
        assert Meets(bs, j - 1) && Apart(bs, j - 1);
      }
    }
    forall j | 0 <= j < |r| ensures Sized(r[j]) {
      if j > i && Splits(bs[i], n) { assert Sized(bs[j - 1]); } else { assert Sized(bs[j]); }
    }
  }

  lemma AppendGood(bs: seq<Block>, lo: nat, hi: nat, n: nat)
    requires Filled(bs, lo, hi) && Merged(bs) && n % 16 == 0 && HEADER < n
    ensures Filled(bs + [Block(hi, n, true)], lo, hi + n) && Merged(bs + [Block(hi, n, true)])
  {
    var r := bs + [Block(hi, n, true)];
    forall j: nat | j + 1 < |r| ensures Meets(r, j) && Apart(r, j) {
      if j + 1 < |bs| { assert Meets(bs, j) && Apart(bs, j); }
    }
  }

  // ------------------------------------------------------------------- sweep

  function Joined(a: Block, b: Block): Block
  {
    Block(a.addr, a.size + b.size, false)
  }

  /** The list after the sweep: runs of free neighbours become one block. */
  function Sweep(bs: seq<Block>): seq<Block>
    decreases |bs|
  {
    if |bs| <= 1 then bs
    else if !bs[0].used && !bs[1].used then Sweep([Joined(bs[0], bs[1])] + bs[2..])
    else [bs[0]] + Sweep(bs[1..])
  }

  /** The sweep keeps the first address, and a used first block. */
  lemma {:induction false} SweepHead(bs: seq<Block>)
    requires bs != []
    ensures Sweep(bs) != [] && Sweep(bs)[0].addr == bs[0].addr && Sweep(bs)[0].used == bs[0].used
    ensures bs[0].used ==> Sweep(bs)[0] == bs[0]
    decreases |bs|
  {
    if |bs| <= 1 || bs[0].used || bs[1].used {
    } else {
      SweepHead([Joined(bs[0], bs[1])] + bs[2..]);
    }
  }

  lemma FilledTail(bs: seq<Block>, lo: nat, hi: nat)
    requires Filled(bs, lo, hi) && |bs| > 1
    ensures Filled(bs[1..], End(bs[0]), hi)
  {
    assert Meets(bs, 0);
    forall i: nat | i + 1 < |bs[1..]| ensures Meets(bs[1..], i) { assert Meets(bs, i + 1); }
  }

  lemma FilledCons(b: Block, bs: seq<Block>, hi: nat)
    requires Sized(b) && bs != [] && Filled(bs, End(b), hi)
    ensures Filled([b] + bs, b.addr, hi)
  {
    var r := [b] + bs;
    forall i: nat | i + 1 < |r| ensures Meets(r, i) { if i > 0 { assert Meets(bs, i - 1); } }
  }

  lemma FilledJoined(bs: seq<Block>, lo: nat, hi: nat)
    requires Filled(bs, lo, hi) && |bs| > 1
    ensures Filled([Joined(bs[0], bs[1])] + bs[2..], lo, hi)
  {
    var r := [Joined(bs[0], bs[1])] + bs[2..];
    assert Meets(bs, 0) && Sized(bs[0]) && Sized(bs[1]);
    forall i: nat | i + 1 < |r| ensures Meets(r, i) { assert Meets(bs, i + 1); }
  }

  /** Swept blocks fill the same range and no two free ones are neighbours. */
  lemma {:induction false} SweepGood(bs: seq<Block>, lo: nat, hi: nat)
    requires Filled(bs, lo, hi)
    ensures Filled(Sweep(bs), lo, hi) && Merged(Sweep(bs))
    decreases |bs|
  {
    if |bs| <= 1 {
    } else {
      if !bs[0].used && !bs[1].used {
        FilledJoined(bs, lo, hi);
        SweepGood([Joined(bs[0], bs[1])] + bs[2..], lo, hi);
      } else {
        FilledTail(bs, lo, hi);
        SweepGood(bs[1..], End(bs[0]), hi);
        SweepHead(bs[1..]);
        FilledCons(bs[0], Sweep(bs[1..]), hi);
        MergedCons(bs[0], Sweep(bs[1..]));
      }
    }
  }

  lemma MergedCons(b: Block, bs: seq<Block>)
    requires Merged(bs) && (bs != [] ==> b.used || bs[0].used)
    ensures Merged([b] + bs)
  {
    var r := [b] + bs;
    forall i: nat | i + 1 < |r| ensures Apart(r, i) { if i > 0 { assert Apart(bs, i - 1); } }
  }

  lemma MergedTail(bs: seq<Block>)
    requires Merged(bs) && bs != []
    ensures Merged(bs[1..]) && (|bs| > 1 ==> bs[0].used || bs[1].used)
  {
    if |bs| > 1 { assert Apart(bs, 0); }
    forall i: nat | i + 1 < |bs[1..]| ensures Apart(bs[1..], i) { assert Apart(bs, i + 1); }
  }

  /** Sweeping from the left settles a merged prefix first. */
  lemma {:induction false} SweepPrefix(a: seq<Block>, b: seq<Block>)
    requires Merged(a) && (a != [] && b != [] ==> a[|a| - 1].used || b[0].used)
    ensures Sweep(a + b) == a + Sweep(b)
    decreases |a|
  {
    hide Sweep, Merged;
    if a == [] {
      assert a + b == b && a + Sweep(b) == Sweep(b);
    } else {
      MergedTail(a);
      var t := a[1..];
      assert a + b == [a[0]] + (t + b);
      SweepPrefix(t, b);
      SweepOne(a[0], t + b);
      assert a + Sweep(b) == [a[0]] + (t + Sweep(b));
    }
  }

  lemma SweepOne(x: Block, s: seq<Block>)
    requires s != [] ==> x.used || s[0].used
    ensures Sweep([x] + s) == [x] + Sweep(s)
  {
    assert ([x] + s)[1..] == s;
    if s == [] { assert [x] + s == [x]; }
  }

  /** A list without free neighbours is left as it is. */
  lemma SweepMerged(bs: seq<Block>)
    requires Merged(bs)
    ensures Sweep(bs) == bs
  {
    SweepPrefix(bs, []);
    assert bs + [] == bs && Sweep([]) == [];
  }

  /** The sweep touches no block in use. */
  lemma {:induction false} SweepLive(bs: seq<Block>)
    ensures Live(Sweep(bs)) == Live(bs)
    decreases |bs|
  {
    if |bs| <= 1 {
    } else {
      if !bs[0].used && !bs[1].used {
        var j := [Joined(bs[0], bs[1])] + bs[2..];
        assert bs == [bs[0], bs[1]] + bs[2..];
        SweepLive(j);
        assert Live(j) == Live(bs);
      } else {
        assert bs == [bs[0]] + bs[1..];
        SweepLive(bs[1..]);
        LiveCons(bs[0], bs[1..]);
        LiveCons(bs[0], Sweep(bs[1..]));
      }
    }
  }

  lemma LiveCons(b: Block, bs: seq<Block>)
    ensures Live([b] + bs) == Live(bs) + if b.used then {b} else {}
  {
  }

  /** free right after a malloc that found room restores the list. */
  lemma FreeTake(bs: seq<Block>, i: nat, n: nat)
    requires Merged(bs) && i < |bs| && Fits(bs[i], n)
    ensures i < |Take(bs, i, n)| && Sweep(FreedAt(Take(bs, i, n), i)) == bs
  {
    hide Sweep, Merged;
    var a, c := bs[..i], bs[i + 1..];
    SplitAt(bs, i);
    SweepMerged(bs);
    SweepPrefix(a, [bs[i]] + c);
    if Splits(bs[i], n) {
      var x, y := Taken(bs[i], n).(used := false), Rest(bs[i], n);
      assert FreedAt(Take(bs, i, n), i) == a + ([x, y] + c);
      SweepPrefix(a, [x, y] + c);
      SweepPair(x, y, c);
      assert Joined(x, y) == bs[i];
    } else {
      assert FreedAt(Take(bs, i, n), i) == bs;
    }
  }

  /** The sweep after a free, on a list without free neighbours, joins the freed block
      with its free neighbours and changes nothing else. */
  lemma FreeMeans(bs: seq<Block>, i: nat)
    requires Merged(bs) && i < |bs| && bs[i].used
    ensures var before, after := i > 0 && !bs[i - 1].used, i + 1 < |bs| && !bs[i + 1].used;
            var lo, hi := if before then i - 1 else i, if after then i + 2 else i + 1;
            var size := bs[i].size + (if before then bs[i - 1].size else 0) + (if after then bs[i + 1].size else 0);
            Sweep(FreedAt(bs, i)) == bs[..lo] + [Block(bs[lo].addr, size, false)] + bs[hi..]
  {
    hide Sweep, Merged;
    var x, rest := bs[i].(used := false), bs[i + 1..];
    MergedParts(bs, i);
    if i > 0 && !bs[i - 1].used {
      assert FreedAt(bs, i) == bs[..i - 1] + ([bs[i - 1]] + ([x] + rest));
      SweepPrefix(bs[..i - 1], [bs[i - 1]] + ([x] + rest));
      SweepTwo(bs[i - 1], x, bs, i);
      SweepAhead(Joined(bs[i - 1], x), bs, i);
    } else {
      assert FreedAt(bs, i) == bs[..i] + ([x] + rest);
      SweepPrefix(bs[..i], [x] + rest);
      SweepAhead(x, bs, i);
    }
  }

  /** A free block before position `i + 1` joins what is free there, and nothing more. */
  lemma SweepAhead(x: Block, bs: seq<Block>, i: nat)
    requires Merged(bs) && i < |bs| && bs[i].used && !x.used
    ensures Sweep([x] + bs[i + 1..]) ==
              if i + 1 < |bs| && !bs[i + 1].used then [Joined(x, bs[i + 1])] + bs[i + 2..] else [x] + bs[i + 1..]
  {
    hide Sweep, Merged;
    MergedParts(bs, i);
    if i + 1 < |bs| && !bs[i + 1].used {
      var y, c := bs[i + 1], bs[i + 2..];
      assert [x] + bs[i + 1..] == [x, y] + c;
      SweepPair(x, y, c);
      SweepOne(Joined(x, y), c);
      SweepMerged(c);
    } else {
      SweepOne(x, bs[i + 1..]);
      SweepMerged(bs[i + 1..]);
    }
  }

  lemma SweepTwo(p: Block, x: Block, bs: seq<Block>, i: nat)
    requires i < |bs| && !p.used && !x.used
    ensures Sweep([p] + ([x] + bs[i + 1..])) == Sweep([Joined(p, x)] + bs[i + 1..])
  {
    hide Sweep;
    var rest := bs[i + 1..];
    assert [p] + ([x] + rest) == [p, x] + rest;
    SweepPair(p, x, rest);
  }

  /** What stands around a used block and its free neighbours. */
  lemma MergedParts(bs: seq<Block>, i: nat)
    requires Merged(bs) && i < |bs| && bs[i].used
    ensures var before, after := i > 0 && !bs[i - 1].used, i + 1 < |bs| && !bs[i + 1].used;
            var lo, hi := if before then i - 1 else i, if after then i + 2 else i + 1;
            && Merged(bs[..lo]) && Merged(bs[hi..])
            && (lo > 0 ==> bs[lo - 1].used) && (hi < |bs| ==> bs[hi].used)
  {
    var before, after := i > 0 && !bs[i - 1].used, i + 1 < |bs| && !bs[i + 1].used;
    var lo, hi := if before then i - 1 else i, if after then i + 2 else i + 1;
    forall j: nat | j + 1 < lo ensures Apart(bs[..lo], j) { assert Apart(bs, j); }
    forall j: nat | j + 1 < |bs[hi..]| ensures Apart(bs[hi..], j) { assert Apart(bs, hi + j); }
    if before && lo > 0 { assert Apart(bs, lo - 1); }
    if after && hi < |bs| { assert Apart(bs, hi - 1); }
  }

  lemma SplitAt(bs: seq<Block>, i: nat)
    requires Merged(bs) && i < |bs|
    ensures Merged(bs[..i]) && bs == bs[..i] + ([bs[i]] + bs[i + 1..]) && (i > 0 && !bs[i].used ==> bs[..i][i - 1].used)
  {
    forall j: nat | j + 1 < i ensures Apart(bs[..i], j) { assert Apart(bs, j); }
    if i > 0 { assert Apart(bs, i - 1); }
  }

  lemma SweepPair(x: Block, y: Block, c: seq<Block>)
    requires !x.used && !y.used
    ensures Sweep([x, y] + c) == Sweep([Joined(x, y)] + c)
  {
    assert ([x, y] + c)[2..] == c;
  }

  lemma LiveTake(bs: seq<Block>, i: nat, n: nat)
    requires i < |bs| && Fits(bs[i], n)
    ensures Live(Take(bs, i, n)) == Live(bs) + {Taken(bs[i], n)}
  {
    var r := Take(bs, i, n);
    assert r[i] == Taken(bs[i], n);
    forall b | b in Live(bs) ensures b in r {
      var j :| 0 <= j < |bs| && bs[j] == b;
      if Splits(bs[i], n) && j > i { assert r[j + 1] == b; } else { assert r[j] == b; }
    }
    forall b | b in Live(r) ensures b in Live(bs) + {Taken(bs[i], n)} {
      var j :| 0 <= j < |r| && r[j] == b;
    }
  }

  lemma LiveFreed(bs: seq<Block>, lo: nat, hi: nat, i: nat)
    requires Filled(bs, lo, hi) && i < |bs| && bs[i].used
    ensures Live(FreedAt(bs, i)) == Live(bs) - {bs[i]}
  {
    var a := FreedAt(bs, i);
    forall b | b in Live(bs) && b != bs[i] ensures b in a {
      var j :| 0 <= j < |bs| && bs[j] == b;
      assert a[j] == b;
    }
    forall b | b in Live(a) ensures b in Live(bs) && b != bs[i] {
      var j :| 0 <= j < |a| && a[j] == b;
      Separate(bs, lo, hi, i, j);
    }
  }

  lemma FilledFreed(bs: seq<Block>, lo: nat, hi: nat, i: nat)
    requires Filled(bs, lo, hi) && i < |bs|
    ensures Filled(FreedAt(bs, i), lo, hi)
  {
    forall j: nat | j + 1 < |bs| ensures Meets(FreedAt(bs, i), j) { assert Meets(bs, j); }
  }

  // --------------------------------------------------------------- the break

  function PageUp(x: nat): nat
  {
    (x + 4095) % WORD / PAGE * PAGE
  }

  /** How many pages sys_brk maps to move the break up from `brk` to `to`. */
  function PagesFor(brk: nat, to: nat): nat
  {
    if PageUp(brk) < PageUp(to) then (PageUp(to) - PageUp(brk)) / PAGE else 0
  }

  /** sys_brk moves the break to `to`: down as far as `start` in any case, up when
      the pages can be had. */
  predicate Moves(start: nat, brk: nat, to: nat, granted: nat)
  {
    0 < to && start <= to && (brk < to ==> PagesFor(brk, to) <= granted)
  }

  /** sbrk adds modulo 2^64, so a large enough `n` asks for a lower break. */
  predicate Grants(start: nat, brk: nat, n: nat, granted: nat)
  {
    n == 0 || Moves(start, brk, (brk + n) % WORD, granted)
  }

  /** On addresses that wrap nowhere: sbrk moves the break up exactly when a page can be
      had for each page boundary from the old break on that lies below the new one. */
  lemma GrantsMeans(start: nat, brk: nat, n: nat, granted: nat)
    requires 0 < start <= brk && 0 < n && brk + n <= WORD - PAGE
    ensures Grants(start, brk, n, granted) <==> (brk + n + 4095) / 4096 - (brk + 4095) / 4096 <= granted
  {
    PageUpMeans(brk);
    PageUpMeans(brk + n);
    var a, b := (brk + 4095) / 4096, (brk + n + 4095) / 4096;
    assert a <= b;
    hide PageUp;
    assert PagesFor(brk, brk + n) == b - a;
  }

  lemma PageUpMeans(x: nat)
    requires x <= WORD - PAGE
    ensures PageUp(x) == (x + 4095) / 4096 * 4096
  {
  }

  /** Where the break stands after it moved. */
  lemma Moved(start: nat, brk: nat, n: nat, granted: nat)
    requires start <= brk < WORD && brk % 16 == 0 && n % 16 == 0
    ensures (brk + n) % WORD % 16 == 0 && 0 < (brk + HEADER) % WORD && brk != WORD - 1
    ensures Grants(start, brk, n, granted) ==> start <= (brk + n) % WORD
  {
    hide PagesFor;
  }

  /** Every page that begins between the old and the new break is mapped exactly when
      the new break does not lie in the last page of the address space, or the old
      one lies there too. */
  lemma PagesCover(brk: nat, to: nat)
    requires brk < to < WORD
    ensures (forall p: nat :: p % PAGE == 0 && brk <= p < to ==> PageUp(brk) <= p < PageUp(to))
            <==> to <= WORD - PAGE || WORD - PAGE < brk
  {
    if to <= WORD - PAGE {
      forall p: nat | p % PAGE == 0 && brk <= p < to ensures PageUp(brk) <= p < PageUp(to) {
      }
    } else if brk <= WORD - PAGE {
      assert (WORD - PAGE) % PAGE == 0 && PageUp(to) == 0;
    } else {
      forall p: nat ensures !(p % PAGE == 0 && brk <= p < to) {
      }
    }
  }

  // ------------------------------------------------------------------ memory

  datatype Header = Header(size: nat, used: bool, next: nat)

  type Memory = map<nat, Header>

  ghost predicate Has(m: Memory, bs: seq<Block>, i: int)
    requires 0 <= i < |bs|
  {
    bs[i].addr in m && m[bs[i].addr] == Header(bs[i].size, bs[i].used, AddrAt(bs, i + 1))
  }

  /** The list in memory is `bs`. */
  ghost predicate Linked(m: Memory, bs: seq<Block>)
  {
    forall i :: 0 <= i < |bs| ==> Has(m, bs, i)
  }

  /** No block has its header at `a`. */
  ghost predicate Fresh(bs: seq<Block>, a: nat)
  {
    forall i :: 0 <= i < |bs| ==> bs[i].addr != a
  }

  /** Headers have addresses of their own, and none is null. */
  ghost predicate Addressed(bs: seq<Block>)
  {
    Fresh(bs, 0) && forall i, j :: 0 <= i < j < |bs| ==> bs[i].addr != bs[j].addr
  }

  lemma FilledAddressed(bs: seq<Block>, lo: nat, hi: nat)
    requires Filled(bs, lo, hi) && 0 < lo
    ensures Addressed(bs) && Fresh(bs, hi)
  {
    forall i | 0 <= i < |bs| ensures bs[i].addr != 0 && bs[i].addr != hi {
      Within(bs, lo, hi, i);
    }
    forall i, j | 0 <= i < j < |bs| ensures bs[i].addr != bs[j].addr {
      Separate(bs, lo, hi, i, j);
    }
  }

  /** The header writes of malloc on a block that it takes. */
  function TakeWrites(m: Memory, c: nat, n: nat): Memory
    requires c in m && n <= m[c].size
  {
    if m[c].size >= n + HEADER + 16
    then m[c + n := Header(m[c].size - n, false, m[c].next)][c := Header(n, true, c + n)]
    else m[c := m[c].(used := true)]
  }

  lemma TakeLinked(m: Memory, bs: seq<Block>, lo: nat, hi: nat, i: nat, n: nat)
    requires Linked(m, bs) && Filled(bs, lo, hi) && i < |bs| && Fits(bs[i], n)
    ensures Has(m, bs, i) && (0 < n ==> Linked(TakeWrites(m, bs[i].addr, n), Take(bs, i, n)))
  {
    assert Has(m, bs, i);
    hide Filled, Linked;
    if 0 < n {
      var c := bs[i].addr;
      var r, m' := Take(bs, i, n), TakeWrites(m, c, n);
      forall j | 0 <= j < |bs| && j != i ensures Has(m', r, Shift(bs[i], n, i, j)) {
        TakeHas(m, bs, lo, hi, i, n, j);
      }
      forall j | 0 <= j < |r| ensures Has(m', r, j) {
        if Splits(bs[i], n) && j > i + 1 {
          assert Has(m', r, Shift(bs[i], n, i, j - 1));
        } else if j < i || (j > i && !Splits(bs[i], n)) {
          assert Has(m', r, Shift(bs[i], n, i, j));
        }
      }
    }
  }

  /** Where block `j` stands once block `i` is taken. */
  function Shift(b: Block, n: nat, i: int, j: int): int
  {
    if Splits(b, n) && j > i then j + 1 else j
  }

  lemma TakeHas(m: Memory, bs: seq<Block>, lo: nat, hi: nat, i: nat, n: nat, j: nat)
    requires Linked(m, bs) && Filled(bs, lo, hi) && i < |bs| && Fits(bs[i], n) && 0 < n && j < |bs| && j != i
    requires Has(m, bs, i)
    ensures Has(TakeWrites(m, bs[i].addr, n), Take(bs, i, n), Shift(bs[i], n, i, j))
  {
    assert Has(m, bs, j);
    Separate(bs, lo, hi, i, j);
    hide Filled, Linked;
  }

  // --------------------------------------------------------------- one malloc

  /** The request fits what was computed for it, and neither its size nor the break
      passes 2^64. */
  ghost predicate Safe(bs: seq<Block>, brk: nat, size: nat)
  {
    size <= WORD - 40 && (NoFit(bs, Total(size)) ==> brk + Total(size) < WORD)
  }

  ghost predicate Backs(b: Block, x: Held)
  {
    b.used && b.addr + HEADER == x.ptr && x.size + HEADER <= b.size
  }

  /** A safe request taken from the list keeps it good and gets the bytes it asked
      for; an unsafe one does not get them. */
  lemma TakeServes(bs: seq<Block>, lo: nat, hi: nat, i: nat, size: nat)
    requires Filled(bs, lo, hi) && Merged(bs) && hi < WORD && 0 < size < WORD && FirstFit(bs, Total(size), i)
    ensures i < |Take(bs, i, Total(size))| && bs[i].addr + HEADER < WORD
    ensures var r := Take(bs, i, Total(size));
            r[i].addr == bs[i].addr && (Backs(r[i], Held(bs[i].addr + HEADER, size)) <==> Safe(bs, hi, size))
    ensures Safe(bs, hi, size) ==>
              Filled(Take(bs, i, Total(size)), lo, hi) && Merged(Take(bs, i, Total(size)))
  {
    hide Total;
    TotalEnough(size);
    Within(bs, lo, hi, i);
    assert Sized(bs[i]);
    if size <= WORD - 40 {
      TotalSized(size);
      TakeGood(bs, lo, hi, i, Total(size));
    } else {
      TotalTiny(size);
    }
  }

  lemma TotalTiny(size: nat)
    requires WORD - 40 < size < WORD
    ensures Total(size) <= 32
  {
  }

  lemma TotalRounded(size: nat)
    ensures Total(size) % 16 == 0 && Total(size) < WORD
  {
  }

  /** The same for a block added at the break. */
  lemma AppendServes(bs: seq<Block>, lo: nat, hi: nat, size: nat)
    requires Filled(bs, lo, hi) && Merged(bs) && hi < WORD && 0 < size < WORD && NoFit(bs, Total(size))
    ensures var n := Total(size);
            var b := Block(hi, n, true);
            var good := Filled(bs + [b], lo, (hi + n) % WORD) && Merged(bs + [b]);
            && (Safe(bs, hi, size) ==> good)
            && (size <= WORD - 40 ==> (good <==> hi + n < WORD))
            && (good && Backs(b, Held(hi + HEADER, size)) <==> Safe(bs, hi, size))
  {
    hide Total, Merged;
    TotalEnough(size);
    TotalRounded(size);
    var n := Total(size);
    var r := bs + [Block(hi, n, true)];
    assert r[|r| - 1] == Block(hi, n, true);
    if size <= WORD - 40 {
      TotalSized(size);
      AppendGood(bs, lo, hi, n);
    }
  }

  /** The state of the library: the list, the break, and where the list began. */
  class Heap {
    const start: nat
    var mem: Memory
    var freeList: nat
    var brk: nat
    ghost var blocks: seq<Block>

    /** The list in memory is `blocks`. */
    ghost predicate Listed()
      reads this
    {
      && 0 < start <= brk < WORD && start % 16 == 0 && brk % 16 == 0
      && Linked(mem, blocks) && Addressed(blocks) && freeList == AddrAt(blocks, 0)
    }

    /** And the blocks reach from the start to the break, merged. */
    ghost predicate Valid()
      reads this
    {
      Listed() && Filled(blocks, start, brk) && Merged(blocks)
    }

    constructor (initial: nat)
      requires 0 < initial < WORD && initial % 16 == 0
      ensures Valid() && blocks == [] && brk == start == initial
    {
      start, brk := initial, initial;
      mem := map[];
      freeList := 0;
      blocks := [];
    }

    /** sys_brk. `granted` is how many pages can be mapped for this call; unmapping
        the pages above a lower break has no effect here. */
    method SysBrk(to: nat, granted: nat) returns (r: nat)
      requires brk < WORD && to < WORD
      modifies this`brk
      ensures r == brk && brk == if Moves(start, old(brk), to, granted) then to else old(brk)
    {
      if to == 0 { return brk; }
      if to < start { return brk; }
      if to > brk {
        var va, endPage, mapped := PageUp(brk), PageUp(to), 0;
        while va < endPage
          invariant va == PageUp(brk) + mapped * PAGE && mapped <= granted && mapped <= PagesFor(brk, to)
          invariant brk == old(brk)
        {
          if mapped == granted { return brk; }
          va, mapped := va + PAGE, mapped + 1;
        }
      }
      brk := to;
      return to;
    }

    /** sbrk: the old break, or -1. */
    method Sbrk(increment: nat, granted: nat) returns (r: nat)
      requires brk < WORD && increment < WORD
      modifies this`brk
      ensures if Grants(start, old(brk), increment, granted) then r == old(brk) && brk == (r + increment) % WORD
              else r == WORD - 1 && brk == old(brk)
    {
      hide Moves;
      var current := brk;
      if increment == 0 { return current; }
      var newBrk := (current + increment) % WORD;
      var result := SysBrk(newBrk, granted);
      if result != newBrk { return WORD - 1; }
      return current;
    }

    /** The first-fit search: the block, or 0 and the last block of the list. */
    method FindFit(n: nat) returns (curr: nat, prev: nat, ghost i: nat)
      requires Listed()
      ensures curr != 0 ==> FirstFit(blocks, n, i) && curr == blocks[i].addr
      ensures curr == 0 ==> NoFit(blocks, n) && prev == AddrAt(blocks, |blocks| - 1)
    {
      curr, prev, i := freeList, 0, 0;
      while curr != 0
        invariant 0 <= i <= |blocks| && curr == AddrAt(blocks, i) && prev == AddrAt(blocks, i - 1)
        invariant forall j :: 0 <= j < i ==> !Fits(blocks[j], n)
        decreases |blocks| - i
      {
        assert Has(mem, blocks, i);
        if !mem[curr].used && mem[curr].size >= n { return; }
        prev, curr, i := curr, mem[curr].next, i + 1;
      }
    }

    /** The list is valid; or it is one that a wrapped break left behind, no free
        block has room for the request, and no header stands at the break. */
    ghost predicate Ready(size: nat)
      reads this
    {
      && Listed()
      && ((Filled(blocks, start, brk) && Merged(blocks)) || (NoFit(blocks, Total(size)) && Fresh(blocks, brk)))
    }

    /** malloc. `granted` is how many pages the kernel can map when asked. The first
        block with room is taken; failing that the list grows by one block at the
        old break; failing that nothing changes. From a valid list, the caller gets
        the bytes it asked for and the list stays valid exactly when the request is
        safe. */
    method Malloc(size: nat, granted: nat) returns (ptr: nat, ghost i: nat)
      requires Ready(size) && size < WORD
      modifies this`mem, this`freeList, this`brk, this`blocks
      ensures 0 < Total(size) || old(NoFit(blocks, Total(size))) ==> Listed()
      ensures ptr == 0 <==>
        size == 0 || (NoFit(old(blocks), Total(size)) && !Grants(start, old(brk), Total(size), granted))
      ensures ptr == 0 ==> blocks == old(blocks) && brk == old(brk)
      ensures ptr != 0 && NoFit(old(blocks), Total(size)) ==>
        && ptr == (old(brk) + HEADER) % WORD && brk == (old(brk) + Total(size)) % WORD
        && i == |old(blocks)| && blocks == old(blocks) + [Block(old(brk), Total(size), true)]
      ensures ptr != 0 && !NoFit(old(blocks), Total(size)) ==>
        && FirstFit(old(blocks), Total(size), i) && ptr == old(blocks)[i].addr + HEADER
        && brk == old(brk) && blocks == Take(old(blocks), i, Total(size)) && i < |blocks|
      ensures ptr != 0 ==> i < |blocks| && ptr == (blocks[i].addr + HEADER) % WORD
      ensures old(Valid()) && (ptr == 0 || Safe(old(blocks), old(brk), size)) ==> Valid()
      ensures old(Valid()) && ptr != 0 && NoFit(old(blocks), Total(size)) && size <= WORD - 40 ==>
        (Valid() <==> old(brk) + Total(size) < WORD)
      ensures old(Valid()) && ptr != 0 ==>
        (Valid() && Backs(blocks[i], Held(ptr, size)) <==> Safe(old(blocks), old(brk), size))
    {
      hide Filled, Merged, Linked, Take, FirstFit, NoFit, Total, Grants, Addressed, Safe;
      i := 0;
      if size == 0 { return 0, i; }
      var totalSize := Total(size);
      TotalRounded(size);
      var curr, prev;
      curr, prev, i := FindFit(totalSize);
      FitOrNot(blocks, totalSize, i);
      if Safe(blocks, brk, size) { SafeTotal(blocks, brk, size); }
      if curr != 0 {
        TakeServes(blocks, start, brk, i, size);
        ptr := TakeBlock(curr, totalSize, i);
      } else {
        if Valid() { AppendServes(blocks, start, brk, size); FilledAddressed(blocks, start, brk); }
        ptr := AddBlock(prev, totalSize, granted);
        i := |old(blocks)|;
      }
    }

    /** Lines 37-50: take the block found. */
    method TakeBlock(curr: nat, n: nat, ghost i: nat) returns (ptr: nat)
      requires Valid() && i < |blocks| && curr == blocks[i].addr && Fits(blocks[i], n)
      modifies this`mem, this`blocks
      ensures ptr == curr + HEADER && blocks == Take(old(blocks), i, n) && (0 < n ==> Listed())
    {
      hide Filled, Merged, Linked, Take;
      ghost var m, bs := mem, blocks;
      TakeLinked(m, bs, start, brk, i, n);
      TakeFirst(bs, i, n);
      if 0 < n { TakeAddressed(bs, start, brk, i, n); }
      if mem[curr].size >= n + HEADER + 16 {
        var newBlock := curr + n;
        mem := mem[newBlock := Header(mem[curr].size - n, false, mem[curr].next)];
        mem := mem[curr := mem[curr].(size := n)];
        mem := mem[curr := mem[curr].(next := newBlock)];
      }
      mem := mem[curr := mem[curr].(used := true)];
      assert 0 < n ==> mem == TakeWrites(m, curr, n);
      blocks := Take(blocks, i, n);
      return curr + HEADER;
    }

    /** Lines 55-71: add a block at the break. */
    method AddBlock(prev: nat, n: nat, granted: nat) returns (ptr: nat)
      requires Listed() && Fresh(blocks, brk) && prev == AddrAt(blocks, |blocks| - 1) && n < WORD && n % 16 == 0
      modifies this`mem, this`freeList, this`brk, this`blocks
      ensures Listed()
      ensures if Grants(start, old(brk), n, granted) then
                && ptr == (old(brk) + HEADER) % WORD && ptr != 0 && brk == (old(brk) + n) % WORD
                && blocks == old(blocks) + [Block(old(brk), n, true)]
              else ptr == 0 && blocks == old(blocks) && brk == old(brk)
    {
      hide Linked, Grants;
      ghost var m, bs := mem, blocks;
      AppendLinked(m, bs, brk, n);
      Moved(start, brk, n, granted);
      var newBlock := Sbrk(n, granted);
      if newBlock == WORD - 1 { return 0; }
      mem := mem[newBlock := Header(n, true, 0)];
      if prev != 0 {
        mem := mem[prev := mem[prev].(next := newBlock)];
      } else {
        freeList := newBlock;
      }
      blocks := blocks + [Block(newBlock, n, true)];
      return (newBlock + HEADER) % WORD;
    }

    /** free of nothing or of a pointer that malloc returned: the block becomes free
        and the sweep joins free neighbours. */
    method Free(ptr: nat, ghost i: nat)
      requires Valid() && (ptr != 0 ==> i < |blocks| && blocks[i].used && ptr == blocks[i].addr + HEADER)
      modifies this`mem, this`blocks
      ensures Valid() && blocks == if ptr == 0 then old(blocks) else Sweep(FreedAt(old(blocks), i))
    {
      hide Filled, Merged, Linked, Sweep;
      if ptr == 0 { return; }
      var block := ptr - HEADER;
      FilledFreed(blocks, start, brk, i);
      FreeLinked(mem, blocks, start, brk, i);
      mem := mem[block := mem[block].(used := false)];
      blocks := FreedAt(blocks, i);
      SweepGood(blocks, start, brk);
      SweepList();
      FilledAddressed(blocks, start, brk);
    }

    /** The coalescing sweep. The list from `curr` on gets shorter at every turn. */
    method SweepList()
      requires 0 < start && Filled(blocks, start, brk) && Linked(mem, blocks) && freeList == AddrAt(blocks, 0)
      modifies this`mem, this`blocks
      ensures Linked(mem, blocks) && blocks == Sweep(old(blocks)) && freeList == AddrAt(blocks, 0)
    {
      hide Filled, Linked, Sweep, JoinAt;
      var curr := freeList;
      ghost var done: seq<Block> := [];
      ghost var rest := blocks;
      ghost var target := Sweep(blocks);
      FirstAddr(blocks, start, brk);
      assert blocks == done + rest;
      if blocks != [] { Here(mem, blocks, start, brk, 0); }
      while curr != 0 && NextOf(curr) != 0
        invariant blocks == done + rest && target == done + Sweep(rest)
        invariant Filled(blocks, start, brk) && Linked(mem, blocks) && freeList == AddrAt(blocks, 0)
        invariant if rest == [] then curr == 0 else curr == rest[0].addr && curr != 0
        invariant curr != 0 ==> curr in mem
        decreases |rest|
      {
        ghost var k := |done|;
        Here(mem, blocks, start, brk, k);
        assert blocks[k] == rest[0] && blocks[k + 1] == rest[1];
        var next := mem[curr].next;
        if !mem[curr].used && !mem[next].used && curr + mem[curr].size == next {
          SweepJoin(rest);
          JoinRest(done, rest);
          JoinNext(curr, next, k);
          rest := [Joined(rest[0], rest[1])] + rest[2..];
        } else {
          SweepSkip(rest);
          done := done + [rest[0]];
          rest := rest[1..];
          curr := next;
          assert blocks == done + rest;
        }
      }
      SweepShort(mem, blocks, start, brk, done, rest, curr);
    }

    /** Joins the free block `curr` with the free block `next` behind it. */
    method JoinNext(curr: nat, next: nat, ghost k: nat)
      requires Filled(blocks, start, brk) && Linked(mem, blocks) && freeList == AddrAt(blocks, 0) && k + 1 < |blocks|
      requires curr == blocks[k].addr && next == blocks[k + 1].addr && !blocks[k].used && !blocks[k + 1].used
      modifies this`mem, this`blocks
      ensures Filled(blocks, start, brk) && Linked(mem, blocks) && freeList == AddrAt(blocks, 0)
      ensures blocks == JoinAt(old(blocks), k) && mem.Keys == old(mem).Keys
    {
      hide Filled, Linked, JoinAt;
      JoinLinked(mem, blocks, start, brk, k);
      JoinFilled(blocks, start, brk, k);
      ghost var m := mem;
      NotSelf(blocks, start, brk, k);
      mem := mem[curr := mem[curr].(size := mem[curr].size + mem[next].size)];
      mem := mem[curr := mem[curr].(next := mem[next].next)];
      assert mem == m[curr := Header(m[curr].size + m[next].size, m[curr].used, m[next].next)];
      blocks := JoinAt(blocks, k);
    }

    function NextOf(curr: nat): nat
      requires curr != 0 ==> curr in mem
      reads this
    {
      if curr == 0 then 0 else mem[curr].next
    }
  }

  lemma TakeFirst(bs: seq<Block>, i: nat, n: nat)
    requires i < |bs|
    ensures AddrAt(Take(bs, i, n), 0) == AddrAt(bs, 0)
  {
  }

  /** Taking a block keeps the addresses apart. */
  lemma TakeAddressed(bs: seq<Block>, lo: nat, hi: nat, i: nat, n: nat)
    requires Filled(bs, lo, hi) && Addressed(bs) && i < |bs| && Fits(bs[i], n) && 0 < n
    ensures Addressed(Take(bs, i, n))
  {
    var r := Take(bs, i, n);
    if Splits(bs[i], n) {
      forall j | 0 <= j < |bs| ensures bs[j].addr != bs[i].addr + n {
        if j != i { Separate(bs, lo, hi, i, j); }
      }
    }
  }

  /** A new last block at the address `a`. */
  lemma AppendLinked(m: Memory, bs: seq<Block>, a: nat, n: nat)
    requires Linked(m, bs) && Addressed(bs) && Fresh(bs, a) && a != 0
    ensures bs != [] ==> bs[|bs| - 1].addr in m
    ensures Addressed(bs + [Block(a, n, true)])
    ensures var m1 := m[a := Header(n, true, 0)];
            var m' := if bs == [] then m1 else m1[bs[|bs| - 1].addr := m1[bs[|bs| - 1].addr].(next := a)];
            Linked(m', bs + [Block(a, n, true)])
  {
    var k := |bs| - 1;
    if bs != [] { assert Has(m, bs, k); }
    var m1 := m[a := Header(n, true, 0)];
    var m' := if bs == [] then m1 else m1[bs[k].addr := m1[bs[k].addr].(next := a)];
    var r := bs + [Block(a, n, true)];
    forall j | 0 <= j < |r| ensures Has(m', r, j) {
      if j < |bs| { assert Has(m, bs, j); }
    }
  }

  lemma FreeLinked(m: Memory, bs: seq<Block>, lo: nat, hi: nat, i: nat)
    requires Linked(m, bs) && Filled(bs, lo, hi) && i < |bs|
    ensures Has(m, bs, i) && Linked(m[bs[i].addr := m[bs[i].addr].(used := false)], FreedAt(bs, i))
  {
    assert Has(m, bs, i);
    var r := FreedAt(bs, i);
    var m' := m[bs[i].addr := m[bs[i].addr].(used := false)];
    forall j | 0 <= j < |r| ensures Has(m', r, j) {
      assert Has(m, bs, j);
      if j != i { Separate(bs, lo, hi, i, j); }
    }
  }

  function JoinAt(bs: seq<Block>, k: nat): seq<Block>
    requires k + 1 < |bs|
  {
    bs[..k] + [Joined(bs[k], bs[k + 1])] + bs[k + 2..]
  }

  lemma JoinFilled(bs: seq<Block>, lo: nat, hi: nat, k: nat)
    requires Filled(bs, lo, hi) && k + 1 < |bs|
    ensures Filled(JoinAt(bs, k), lo, hi) && AddrAt(JoinAt(bs, k), 0) == AddrAt(bs, 0)
  {
    var r := JoinAt(bs, k);
    assert Meets(bs, k) && Sized(bs[k]) && Sized(bs[k + 1]);
    forall j: nat | j + 1 < |r| ensures Meets(r, j) {
      if j < k { assert Meets(bs, j); } else { assert Meets(bs, j + 1); }
    }
  }

  lemma JoinLinked(m: Memory, bs: seq<Block>, lo: nat, hi: nat, k: nat)
    requires Linked(m, bs) && Filled(bs, lo, hi) && k + 1 < |bs| && !bs[k].used && !bs[k + 1].used
    ensures Has(m, bs, k) && Has(m, bs, k + 1)
    ensures var a, b := bs[k].addr, bs[k + 1].addr;
            Linked(m[a := Header(m[a].size + m[b].size, m[a].used, m[b].next)], JoinAt(bs, k))
  {
    assert Has(m, bs, k) && Has(m, bs, k + 1);
    var a, b := bs[k].addr, bs[k + 1].addr;
    var r := JoinAt(bs, k);
    var m' := m[a := Header(m[a].size + m[b].size, m[a].used, m[b].next)];
    forall j | 0 <= j < |r| ensures Has(m', r, j) {
      if j < k {
        assert Has(m, bs, j);
        Separate(bs, lo, hi, j, k);
      } else if j > k {
        assert Has(m, bs, j + 1);
        Separate(bs, lo, hi, j + 1, k);
      }
    }
  }

  lemma JoinRest(done: seq<Block>, rest: seq<Block>)
    requires |rest| > 1
    ensures |done| + 1 < |done + rest| && JoinAt(done + rest, |done|) == done + ([Joined(rest[0], rest[1])] + rest[2..])
  {
    assert (done + rest)[|done| + 2..] == rest[2..] && (done + rest)[..|done|] == done;
  }

  lemma NotSelf(bs: seq<Block>, lo: nat, hi: nat, k: nat)
    requires Filled(bs, lo, hi) && k + 1 < |bs|
    ensures bs[k].addr != bs[k + 1].addr
  {
    Separate(bs, lo, hi, k, k + 1);
  }

  lemma FirstAddr(bs: seq<Block>, lo: nat, hi: nat)
    requires Filled(bs, lo, hi) && 0 < lo
    ensures bs != [] ==> bs[0].addr != 0
  {
  }

  /** Block `k` in memory, and its neighbour. */
  lemma Here(m: Memory, bs: seq<Block>, lo: nat, hi: nat, k: nat)
    requires Linked(m, bs) && Filled(bs, lo, hi) && 0 < lo && k < |bs|
    ensures Has(m, bs, k) && (m[bs[k].addr].next != 0 <==> k + 1 < |bs|)
    ensures k + 1 < |bs| ==> Has(m, bs, k + 1) && Meets(bs, k) && m[bs[k].addr].next == bs[k + 1].addr
  {
    assert Has(m, bs, k);
    if k + 1 < |bs| { Within(bs, lo, hi, k + 1); }
  }

  lemma SweepJoin(rest: seq<Block>)
    requires |rest| > 1 && !rest[0].used && !rest[1].used
    ensures Sweep(rest) == Sweep([Joined(rest[0], rest[1])] + rest[2..])
  {
  }

  lemma SweepSkip(rest: seq<Block>)
    requires |rest| > 1 && (rest[0].used || rest[1].used)
    ensures Sweep(rest) == [rest[0]] + Sweep(rest[1..])
  {
  }

  lemma SweepShort(m: Memory, bs: seq<Block>, lo: nat, hi: nat, done: seq<Block>, rest: seq<Block>, curr: nat)
    requires bs == done + rest && Linked(m, bs) && Filled(bs, lo, hi) && 0 < lo
    requires if rest == [] then curr == 0 else curr == rest[0].addr && curr in m && m[curr].next == 0
    ensures Sweep(rest) == rest
  {
    if rest != [] { Here(m, bs, lo, hi, |done|); }
  }

  // -------------------------------------------------------------- whole runs

  datatype Op = Malloc(size: nat, granted: nat) | Free(index: nat)

  /** Every held pointer has a block in use of its own, and every block in use is
      held. */
  ghost predicate Holds(bs: seq<Block>, held: seq<Held>)
  {
    && (forall i :: 0 <= i < |held| ==> BackedBy(bs, held[i]))
    && (forall i, j :: 0 <= i < j < |held| ==> held[i].ptr != held[j].ptr)
    && (forall b :: b in Live(bs) ==> HeldBy(b, held))
  }

  ghost predicate BackedBy(bs: seq<Block>, x: Held)
  {
    exists b :: b in Live(bs) && Backs(b, x)
  }

  ghost predicate HeldBy(b: Block, held: seq<Held>)
  {
    exists i :: 0 <= i < |held| && Backs(b, held[i])
  }

  ghost function BlockOf(bs: seq<Block>, x: Held): (k: nat)
    requires BackedBy(bs, x)
    ensures k < |bs| && Backs(bs[k], x)
  {
    var b :| b in Live(bs) && Backs(b, x);
    var k :| 0 <= k < |bs| && bs[k] == b;
    k
  }

  /** Held regions never overlap. */
  lemma HeldApart(bs: seq<Block>, lo: nat, hi: nat, held: seq<Held>)
    requires Filled(bs, lo, hi) && Holds(bs, held)
    ensures Disjoint(held)
  {
    forall i, j | 0 <= i < |held| && 0 <= j < |held| && i != j ensures Beside(held[i], held[j]) {
      var k, l := BlockOf(bs, held[i]), BlockOf(bs, held[j]);
      assert held[i].ptr != held[j].ptr;
      if k != l { Separate(bs, lo, hi, k, l); }
    }
  }

  lemma HoldsMore(bs: seq<Block>, bs': seq<Block>, held: seq<Held>, b: Block, x: Held)
    requires Holds(bs, held) && Live(bs') == Live(bs) + {b} && Backs(b, x)
    requires forall c :: c in Live(bs) ==> c.addr != b.addr
    ensures Holds(bs', held + [x])
  {
    hide Live, Backs, BackedBy, HeldBy;
    var held' := held + [x];
    forall i | 0 <= i < |held'| ensures BackedBy(bs', held'[i]) {
      if i < |held| { BackedMore(bs, bs', held[i]); } else { BackedNow(bs', b, x); }
    }
    forall i | 0 <= i < |held| ensures held[i].ptr != x.ptr { OtherPointer(bs, b, x, held[i]); }
    forall c | c in Live(bs') ensures HeldBy(c, held') {
      if c in Live(bs) { HeldMore(c, held, x); } else { HeldNow(c, held, x); }
    }
  }

  lemma BackedMore(bs: seq<Block>, bs': seq<Block>, x: Held)
    requires BackedBy(bs, x) && Live(bs) <= Live(bs')
    ensures BackedBy(bs', x)
  {
    var c :| c in Live(bs) && Backs(c, x);
    assert c in Live(bs');
  }

  lemma BackedNow(bs: seq<Block>, b: Block, x: Held)
    requires b in Live(bs) && Backs(b, x)
    ensures BackedBy(bs, x)
  {
  }

  lemma OtherPointer(bs: seq<Block>, b: Block, x: Held, y: Held)
    requires BackedBy(bs, y) && Backs(b, x) && forall c :: c in Live(bs) ==> c.addr != b.addr
    ensures y.ptr != x.ptr
  {
  }

  lemma HeldMore(c: Block, held: seq<Held>, x: Held)
    requires HeldBy(c, held)
    ensures HeldBy(c, held + [x])
  {
    var i :| 0 <= i < |held| && Backs(c, held[i]);
    assert Backs(c, (held + [x])[i]);
  }

  lemma HeldNow(c: Block, held: seq<Held>, x: Held)
    requires Backs(c, x)
    ensures HeldBy(c, held + [x])
  {
    assert Backs(c, (held + [x])[|held|]);
  }

  lemma HoldsLess(bs: seq<Block>, bs': seq<Block>, lo: nat, hi: nat, held: seq<Held>, k: nat, x: nat)
    requires Filled(bs, lo, hi) && Holds(bs, held) && k < |bs| && x < |held| && Backs(bs[k], held[x])
    requires Live(bs') == Live(bs) - {bs[k]}
    ensures Holds(bs', held[..x] + held[x + 1..])
  {
    hide Filled, BackedBy, HeldBy, Backs, Live;
    var held' := held[..x] + held[x + 1..];
    forall i | 0 <= i < |held'| ensures BackedBy(bs', held'[i]) {
      var o := if i < x then i else i + 1;
      assert held'[i] == held[o] && held[o].ptr != held[x].ptr && BackedBy(bs, held[o]);
      StillBacked(bs, bs', bs[k], held[x], held[o]);
    }
    forall c | c in Live(bs') ensures HeldBy(c, held') {
      assert HeldBy(c, held);
      StillHeld(bs, lo, hi, held, k, x, c);
    }
  }

  lemma StillBacked(bs: seq<Block>, bs': seq<Block>, b: Block, x: Held, y: Held)
    requires Live(bs') == Live(bs) - {b} && Backs(b, x) && BackedBy(bs, y) && x.ptr != y.ptr
    ensures BackedBy(bs', y)
  {
    hide Live;
    var c :| c in Live(bs) && Backs(c, y);
    assert c in Live(bs');
  }

  lemma StillHeld(bs: seq<Block>, lo: nat, hi: nat, held: seq<Held>, k: nat, x: nat, c: Block)
    requires Filled(bs, lo, hi) && k < |bs| && x < |held| && Backs(bs[k], held[x])
    requires c in Live(bs) && c != bs[k] && HeldBy(c, held)
    ensures HeldBy(c, held[..x] + held[x + 1..])
  {
    var held' := held[..x] + held[x + 1..];
    var i :| 0 <= i < |held| && Backs(c, held[i]);
    var l :| 0 <= l < |bs| && bs[l] == c;
    if i == x { Separate(bs, lo, hi, k, l); }
    assert Backs(c, held'[if i < x then i else i - 1]);
  }

  lemma FreshBlock(bs: seq<Block>, lo: nat, hi: nat, i: nat)
    requires Filled(bs, lo, hi) && i < |bs| && !bs[i].used
    ensures forall c :: c in Live(bs) ==> c.addr != bs[i].addr
  {
    forall c | c in Live(bs) ensures c.addr != bs[i].addr {
      var j :| 0 <= j < |bs| && bs[j] == c;
      Separate(bs, lo, hi, i, j);
    }
  }

  lemma FreshEnd(bs: seq<Block>, lo: nat, hi: nat, n: nat)
    requires Filled(bs, lo, hi)
    ensures Live(bs + [Block(hi, n, true)]) == Live(bs) + {Block(hi, n, true)}
    ensures forall c :: c in Live(bs) ==> c.addr != hi
  {
    forall c | c in Live(bs) ensures c.addr != hi {
      var j :| 0 <= j < |bs| && bs[j] == c;
      Within(bs, lo, hi, j);
    }
  }

  /** What a malloc that serves its caller leaves held. */
  lemma HoldsMalloc(bs: seq<Block>, lo: nat, hi: nat, held: seq<Held>, i: nat, n: nat, size: nat)
    requires Filled(bs, lo, hi) && Holds(bs, held) && size + HEADER <= n
    ensures FirstFit(bs, n, i) ==> Holds(Take(bs, i, n), held + [Held(bs[i].addr + HEADER, size)])
    ensures Holds(bs + [Block(hi, n, true)], held + [Held(hi + HEADER, size)])
  {
    hide Holds, Take;
    FreshEnd(bs, lo, hi, n);
    HoldsMore(bs, bs + [Block(hi, n, true)], held, Block(hi, n, true), Held(hi + HEADER, size));
    if FirstFit(bs, n, i) {
      FreshBlock(bs, lo, hi, i);
      LiveTake(bs, i, n);
      HoldsMore(bs, Take(bs, i, n), held, Taken(bs[i], n), Held(bs[i].addr + HEADER, size));
    }
  }

  /** A pointer that its block does not back is not held. */
  lemma NotHeld(bs: seq<Block>, lo: nat, hi: nat, held: seq<Held>, i: nat, x: Held)
    requires Filled(bs, lo, hi) && i < |bs| && bs[i].addr + HEADER == x.ptr && !Backs(bs[i], x)
    ensures !Holds(bs, held + [x])
  {
    if Holds(bs, held + [x]) {
      assert BackedBy(bs, (held + [x])[|held|]);
      var k := BlockOf(bs, x);
      Separate(bs, lo, hi, i, k);
    }
  }

  lemma HoldsFree(bs: seq<Block>, lo: nat, hi: nat, held: seq<Held>, k: nat, x: nat)
    requires Filled(bs, lo, hi) && Holds(bs, held) && k < |bs| && x < |held| && Backs(bs[k], held[x])
    ensures Holds(Sweep(FreedAt(bs, k)), held[..x] + held[x + 1..])
  {
    hide Holds, Sweep;
    LiveFreed(bs, lo, hi, k);
    SweepLive(FreedAt(bs, k));
    HoldsLess(bs, Sweep(FreedAt(bs, k)), lo, hi, held, k, x);
  }

  /** The list, the break, and what the program holds. */
  datatype View = View(bs: seq<Block>, brk: nat, held: seq<Held>)

  /** malloc answers with a pointer. */
  ghost predicate Answers(start: nat, v: View, size: nat, granted: nat)
  {
    0 < size && (NoFit(v.bs, Total(size)) ==> Grants(start, v.brk, Total(size), granted))
  }

  ghost predicate MallocDid(start: nat, v: View, size: nat, granted: nat, v': View)
  {
    var n := Total(size);
    if !Answers(start, v, size, granted) then v' == v
    else if NoFit(v.bs, n) then
      v' == View(v.bs + [Block(v.brk, n, true)], (v.brk + n) % WORD, v.held + [Held((v.brk + HEADER) % WORD, size)])
    else
      exists i: nat ::
        FirstFit(v.bs, n, i) && v' == View(Take(v.bs, i, n), v.brk, v.held + [Held(v.bs[i].addr + HEADER, size)])
  }

  ghost predicate FreeDid(v: View, x: nat, v': View)
  {
    if x >= |v.held| then v' == v
    else
      && v'.brk == v.brk && v'.held == v.held[..x] + v.held[x + 1..]
      && exists i: nat :: i < |v.bs| && Backs(v.bs[i], v.held[x]) && v'.bs == Sweep(FreedAt(v.bs, i))
  }

  /** What one call does to them. */
  ghost predicate Did(start: nat, v: View, op: Op, v': View)
  {
    match op
    case Malloc(size, granted) => MallocDid(start, v, size, granted, v')
    case Free(x) => FreeDid(v, x, v')
  }

  /** The call is a malloc that answers with a pointer although it is not safe. */
  ghost predicate Spoils(start: nat, v: View, op: Op)
  {
    match op
    case Malloc(size, granted) => Answers(start, v, size, granted) && !Safe(v.bs, v.brk, size)
    case Free(_) => false
  }

  /** The states before, between and after the first `done` calls. */
  ghost predicate Traced(start: nat, trace: seq<View>, ops: seq<Op>, done: nat)
  {
    && done <= |ops| && |trace| == done + 1
    && forall i :: 0 <= i < done ==> Did(start, trace[i], ops[i], trace[i + 1])
  }

  lemma TraceMore(start: nat, trace: seq<View>, ops: seq<Op>, done: nat, v: View)
    requires done < |ops| && Traced(start, trace, ops, done) && Did(start, trace[done], ops[done], v)
    ensures Traced(start, trace + [v], ops, done + 1)
  {
    hide Did;
    var t := trace + [v];
    forall i | 0 <= i < done + 1 ensures Did(start, t[i], ops[i], t[i + 1]) {
      if i < done { assert Did(start, trace[i], ops[i], trace[i + 1]); }
    }
  }

  ghost predicate ValidOp(op: Op)
  {
    op.Malloc? ==> op.size < WORD
  }

  /** One call by a program that holds `held`. It leaves a valid list that backs
      everything held exactly unless it spoils them. */
  method Call(h: Heap, held: seq<Held>, op: Op) returns (held': seq<Held>, spoiled: bool)
    requires h.Valid() && Holds(h.blocks, held) && ValidOp(op)
    modifies h`mem, h`freeList, h`brk, h`blocks
    ensures spoiled <==> Spoils(h.start, View(old(h.blocks), old(h.brk), held), op)
    ensures h.Valid() && Holds(h.blocks, held') <==> !spoiled
    ensures Did(h.start, View(old(h.blocks), old(h.brk), held), op, View(h.blocks, h.brk, held'))
    ensures !spoiled ==> h.brk <= old(h.brk) + if op.Malloc? then Total(op.size) else 0
  {
    hide Filled, Merged, Linked, Take, FirstFit, NoFit, Total, Sweep, Holds, Grants, Safe, Addressed;
    held', spoiled := held, false;
    ghost var bs := h.blocks;
    var brk := h.brk;
    match op
    case Malloc(size, granted) =>
      var ptr, i := h.Malloc(size, granted);
      if ptr != 0 { held' := held + [Held(ptr, size)]; }
      spoiled := ptr != 0 && (size > WORD - 40 || h.brk < brk);
      UnsafeTold(bs, brk, size);
      if Safe(bs, brk, size) {
        SafeTotal(bs, brk, size);
        HoldsMalloc(bs, h.start, brk, held, i, Total(size), size);
      } else if ptr != 0 && h.Valid() {
        Unserved(h.blocks, h.start, h.brk, held, i, ptr, size);
      }
      FitOrNot(bs, Total(size), i);
    case Free(x) =>
      if x < |held| {
        HeldBacked(h.blocks, held, x);
        ghost var k := BlockOf(h.blocks, held[x]);
        HoldsFree(h.blocks, h.start, h.brk, held, k, x);
        h.Free(held[x].ptr, k);
        held' := held[..x] + held[x + 1..];
      }
  }

  lemma SafeTotal(bs: seq<Block>, brk: nat, size: nat)
    requires Safe(bs, brk, size)
    ensures size + HEADER <= Total(size) && (NoFit(bs, Total(size)) ==> brk + Total(size) < WORD)
  {
    TotalEnough(size);
  }

  /** A break that moved down, or a size that wrapped, tells an unsafe request. */
  lemma UnsafeTold(bs: seq<Block>, brk: nat, size: nat)
    requires brk < WORD
    ensures !Safe(bs, brk, size) <==>
              size > WORD - 40 || (NoFit(bs, Total(size)) && (brk + Total(size)) % WORD < brk)
  {
    hide NoFit;
  }

  lemma Unserved(bs': seq<Block>, lo: nat, hi: nat, held: seq<Held>, i: nat, ptr: nat, size: nat)
    requires Filled(bs', lo, hi) && hi < WORD && i < |bs'| && !Backs(bs'[i], Held(ptr, size))
    requires ptr == (bs'[i].addr + HEADER) % WORD
    ensures !Holds(bs', held + [Held(ptr, size)])
  {
    assert Sized(bs'[i]);
    Within(bs', lo, hi, i);
    NotHeld(bs', lo, hi, held, i, Held(ptr, size));
  }

  lemma HeldBacked(bs: seq<Block>, held: seq<Held>, x: nat)
    requires Holds(bs, held) && x < |held|
    ensures BackedBy(bs, held[x]) && held[x].ptr != 0
  {
  }

  /** The bytes that the mallocs of a run ask the kernel for at most. */
  function Asked(ops: seq<Op>): nat
  {
    if ops == [] then 0
    else
      var last := ops[|ops| - 1];
      Asked(ops[..|ops| - 1]) + if last.Malloc? then Total(last.size) else 0
  }

  /** No size and no sum of sizes passes 2^64. */
  ghost predicate Modest(start: nat, ops: seq<Op>)
  {
    && start + Asked(ops) < WORD
    && forall i :: 0 <= i < |ops| && ops[i].Malloc? ==> ops[i].size <= WORD - 40
  }

  lemma {:induction false} AskedMore(ops: seq<Op>, n: nat)
    requires n <= |ops|
    ensures Asked(ops[..n]) <= Asked(ops)
    decreases |ops| - n
  {
    if n == |ops| {
      assert ops[..n] == ops;
    } else {
      AskedMore(ops, n + 1);
      assert ops[..n + 1][..n] == ops[..n];
    }
  }

  /** A modest run has only safe calls. */
  lemma ModestSafe(start: nat, ops: seq<Op>, n: nat, v: View)
    requires Modest(start, ops) && n < |ops| && v.brk <= start + Asked(ops[..n])
    ensures !Spoils(start, v, ops[n])
    ensures v.brk + (if ops[n].Malloc? then Total(ops[n].size) else 0) <= start + Asked(ops[..n + 1])
  {
    hide Total, NoFit;
    assert ops[..n + 1][..n] == ops[..n];
    AskedMore(ops, n + 1);
  }

  /** Any run in which only malloc moves the break follows the calls one by one, up
      to the first malloc that answers without being safe. As long as there is none,
      the blocks reach from the first one to the break without gap, no two free ones
      are neighbours, a block is in use exactly while it is held, and the regions the
      program holds are disjoint; from then on that is no longer so. No malloc of a
      run is unsafe when start and sizes together stay below 2^64. */
  method Run(h: Heap, ops: seq<Op>)
    returns (held: seq<Held>, done: nat, spoiled: bool, ghost trace: seq<View>)
    requires h.Valid() && h.blocks == [] && forall i :: 0 <= i < |ops| ==> ValidOp(ops[i])
    modifies h`mem, h`freeList, h`brk, h`blocks
    ensures Traced(h.start, trace, ops, done)
    ensures trace[0] == View([], old(h.brk), []) && trace[done] == View(h.blocks, h.brk, held)
    ensures h.Valid() && Holds(h.blocks, held) <==> !spoiled
    ensures spoiled <==> 0 < done && Spoils(h.start, trace[done - 1], ops[done - 1])
    ensures !spoiled ==> done == |ops| && Disjoint(held)
    ensures Modest(h.start, ops) ==> !spoiled
  {
    hide Filled, Merged, Linked, Did, Traced, Holds, Spoils, Modest, Addressed, Total, Asked;
    held, done, spoiled := [], 0, false;
    trace := [View([], h.brk, [])];
    Begin(h.start, h.brk, trace, ops);
    while done < |ops|
      invariant done <= |ops| && !spoiled && h.Valid() && Holds(h.blocks, held)
      invariant |trace| == done + 1 && Traced(h.start, trace, ops, done)
      invariant trace[0] == View([], old(h.brk), []) && trace[done] == View(h.blocks, h.brk, held)
      invariant 0 < done ==> !Spoils(h.start, trace[done - 1], ops[done - 1])
      invariant Modest(h.start, ops) ==> h.brk <= h.start + Asked(ops[..done])
    {
      ghost var v := View(h.blocks, h.brk, held);
      if Modest(h.start, ops) { ModestSafe(h.start, ops, done, v); }
      held, spoiled := Call(h, held, ops[done]);
      TraceMore(h.start, trace, ops, done, View(h.blocks, h.brk, held));
      trace := trace + [View(h.blocks, h.brk, held)];
      done := done + 1;
      if spoiled { return; }
    }
    HeldApart(h.blocks, h.start, h.brk, held);
  }

  /** A run of the real sizes: the second malloc moves the break down, and the third
      one gets a header inside the first region and a region inside the second. */
  method BreakMovesDown() returns (first: nat, second: nat, third: nat)
    ensures first == 0x1000_0018 && second == 0x1000_0418 && third == 0x1000_0408
    ensures first <= third - HEADER < first + 1000
    ensures !Beside(Held(second, WORD - 40), Held(third, 100))
  {
    hide Filled, Merged, Linked, Take, FirstFit, NoFit, Total, Grants, Addressed, Safe;
    var h := new Heap(0x1000_0000);
    ThreeSizes();
    ghost var i;
    NothingFits([], Total(1000));
    first, i := h.Malloc(1000, 1);
    ghost var one := Block(0x1000_0000, 1024, true);
    assert h.blocks == [one];
    NothingFits(h.blocks, Total(WORD - 40));
    assert h.Valid() by { assert Safe([], 0x1000_0000, 1000) by { NoSpoil(); } }
    second, i := h.Malloc(WORD - 40, 0);
    NothingFits(h.blocks, Total(100));
    assert Fresh(h.blocks, h.brk);
    third, i := h.Malloc(100, 0);
  }

  lemma ThreeSizes()
    ensures Total(1000) == 1024 && Total(WORD - 40) == WORD - 16 && Total(100) == 128
    ensures Grants(0x1000_0000, 0x1000_0000, 1024, 1)
    ensures Grants(0x1000_0000, 0x1000_0400, WORD - 16, 0)
    ensures Grants(0x1000_0000, 0x1000_03F0, 128, 0)
  {
  }

  lemma NoSpoil()
    ensures Safe([], 0x1000_0000, 1000)
  {
  }

  lemma NothingFits(bs: seq<Block>, n: nat)
    requires forall i :: 0 <= i < |bs| ==> bs[i].used
    ensures NoFit(bs, n)
  {
  }

  lemma Begin(start: nat, brk: nat, trace: seq<View>, ops: seq<Op>)
    requires |trace| == 1 && Filled([], start, brk)
    ensures Traced(start, trace, ops, 0) && Holds([], []) && brk == start
  {
  }
}
