/** kernel/memory/pmm.c: physical frames in a counted bitmap, one bit per frame,
    1 for used or reserved. */
module Pmm {
  import opened Bits

  const PAGE: nat := 4096

  function AlignDown(x: nat): nat
  {
    x / PAGE * PAGE
  }

  function AlignUp(x: nat): nat
  {
    (x + PAGE - 1) / PAGE * PAGE
  }

  function BitmapSize(frames: nat): nat
  {
    if frames % 8 != 0 then frames / 8 + 1 else frames / 8
  }

  /** The frames whose bit is set. */
  ghost function BitsOf(bytes: seq<U8>): (r: set<nat>)
  {
    set f: nat | f < 8 * |bytes| && Bit(bytes[f / 8], f % 8)
  }

  /** Frame `f` is the binary digit of weight 2^(f % 8) of byte f / 8. */
  lemma BitsMean(bytes: seq<U8>, f: nat)
    ensures f in BitsOf(bytes) <==> f < 8 * |bytes| && bytes[f / 8] / Pow2(f % 8) % 2 == 1
  {
    if f < 8 * |bytes| { BitIsDigit(bytes[f / 8], f % 8); }
  }

  lemma FlipFrame(bytes: seq<U8>, f: nat, on: bool)
    requires f < 8 * |bytes|
    ensures var bytes' := bytes[f / 8 := SetBit(bytes[f / 8], f % 8, on)];
            BitsOf(bytes') == if on then BitsOf(bytes) + {f} else BitsOf(bytes) - {f}
  {
    var bytes' := bytes[f / 8 := SetBit(bytes[f / 8], f % 8, on)];
    hide Bit;
    forall j: nat | j < 8 * |bytes|
      ensures Bit(bytes'[j / 8], j % 8) == if j == f then on else Bit(bytes[j / 8], j % 8)
    {
      if j / 8 == f / 8 && j % 8 == f % 8 { assert j == f; }
    }
  }

  /** The frames that pmm_mark_region visits: from the page of `phys` up to the
      last page that starts before the clipped end. */
  ghost function Region(maxPhys: nat, phys: nat, length: nat): (r: set<nat>)
  {
    Below(RegionEnd(maxPhys, phys, length)) - Below(phys / PAGE)
  }

  function RegionEnd(maxPhys: nat, phys: nat, length: nat): nat
  {
    var end := AlignUp(phys + length);
    ((if end > maxPhys then maxPhys else end) + PAGE - 1) / PAGE
  }

  /** The region reaches into page `f`: it starts before the page ends and ends after
      the page starts. */
  predicate Meets(phys: nat, length: nat, f: nat)
  {
    phys < (f + 1) * 4096 && f * 4096 < phys + length
  }

  /** A region that reaches into a page has all of it marked, up to the end of memory. */
  lemma RegionMeans(maxPhys: nat, phys: nat, length: nat, f: nat)
    ensures f in Region(maxPhys, phys, length) <==> Meets(phys, length, f) && f * 4096 < maxPhys
  {
    LoopBound(maxPhys, phys, length, f);
  }

  /** The set bits after the frames in `r` became free or reserved. */
  ghost function Marked(s: set<nat>, r: set<nat>, free: bool): set<nat>
  {
    if free then s - r else s + r
  }

  /** Exactly the bits of the pages the region reaches into, up to the end of memory,
      are set or cleared. */
  ghost predicate MarkedBy(s: set<nat>, s': set<nat>, maxPhys: nat, phys: nat, length: nat, free: bool)
  {
    forall f: nat :: f in s' <==> if Meets(phys, length, f) && f * 4096 < maxPhys then !free else f in s
  }

  lemma MarkedMeans(maxPhys: nat, phys: nat, length: nat, s: set<nat>, free: bool)
    ensures MarkedBy(s, Marked(s, Region(maxPhys, phys, length), free), maxPhys, phys, length, free)
  {
    hide Region;
    forall f: nat { RegionMeans(maxPhys, phys, length, f); }
  }

  lemma MarkedMore(s: set<nat>, r: set<nat>, f: nat, free: bool)
    ensures Marked(Marked(s, r, free), {f}, free) == Marked(s, r + {f}, free)
    ensures r == {} ==> Marked(s, r, free) == s
  {
  }

  ghost function Frames(lo: nat, hi: nat): (r: set<nat>)
  {
    Below(hi) - Below(lo)
  }

  lemma NoFrames(lo: nat)
    ensures Frames(lo, lo) == {}
  {
  }

  lemma MoreFrames(lo: nat, f: nat)
    requires lo <= f
    ensures Frames(lo, f + 1) == Frames(lo, f) + {f}
  {
  }

  lemma RegionFrames(maxPhys: nat, phys: nat, length: nat, last: nat)
    requires last == phys / PAGE >= RegionEnd(maxPhys, phys, length) || last == RegionEnd(maxPhys, phys, length)
    ensures Frames(phys / PAGE, last) == Region(maxPhys, phys, length)
  {
  }

  /** The loop visits `fr` exactly when it lies below the region's end. */
  lemma LoopBound(maxPhys: nat, phys: nat, length: nat, fr: nat)
    ensures var end := AlignUp(phys + length);
            fr * PAGE < (if end > maxPhys then maxPhys else end) <==> fr < RegionEnd(maxPhys, phys, length)
  {
  }

  lemma FullBitmap(bytes: seq<U8>, size: nat)
    requires size <= |bytes| && forall i :: 0 <= i < size ==> bytes[i] == 255
    ensures forall f: nat :: f < 8 * size ==> f in BitsOf(bytes)
  {
    FullByte(255);
    hide Bit;
    forall f: nat | f < 8 * size ensures f in BitsOf(bytes) {
      assert AllSet(255, 8) && bytes[f / 8] == 255;
    }
  }

  /** A region from address 0 on visits every frame that starts before its end. */
  lemma FromZero(maxPhys: nat, length: nat, f: nat)
    requires f * PAGE < length && f < maxPhys / PAGE
    ensures f in Region(maxPhys, 0, length)
  {
  }

  /** Taking frame `f` into use keeps the count right. */
  lemma CountUp(s: set<nat>, total: nat, f: nat)
    requires f !in s && f < total
    ensures |(s + {f}) * Below(total)| == |s * Below(total)| + 1
  {
    assert (s + {f}) * Below(total) == s * Below(total) + {f};
  }

  lemma AllBelow(total: nat, s: set<nat>)
    requires forall g: nat :: g < total ==> g in s
    ensures Below(total) <= s
  {
  }

  lemma NotAllBelow(total: nat, s: set<nat>, f: nat)
    requires f < total && f !in s
    ensures !(Below(total) <= s)
  {
    assert f in Below(total);
  }

  class Allocator {
    const maxPhys: nat
    const totalFrames: nat
    const bitmapPhys: nat
    const bitmapSize: nat
    const bitmap: array<U8> // the bitmap, and the byte of memory behind it
    var usedFrames: int

    ghost predicate Valid()
      reads this, bitmap
      ensures Valid() ==> totalFrames <= 8 * bitmapSize < 8 * bitmap.Length
    {
      totalFrames == maxPhys / PAGE && bitmapSize == BitmapSize(totalFrames) && bitmap.Length == bitmapSize + 1
    }

    /** The set bits, those of the byte behind the bitmap included. */
    ghost function All(): (r: set<nat>)
      reads bitmap
    {
      BitsOf(bitmap[..])
    }

    /** The set bits of the bitmap. */
    ghost function Set(): (r: set<nat>)
      reads bitmap
    {
      All() * Below(8 * bitmapSize)
    }

    /** Frames in use. */
    ghost function Used(): (r: set<nat>)
      reads bitmap
    {
      All() * Below(totalFrames)
    }

    /** The counter is the number of frames in use, and the bits that stand for
        no frame are set. */
    ghost predicate Counted()
      reads this, bitmap
    {
      usedFrames == |Used()| && forall f: nat :: totalFrames <= f < 8 * bitmapSize ==> f in Set()
    }

    /** How far the counter is from the number of frames in use. */
    ghost function Drift(): int
      reads this, bitmap
    {
      usedFrames - |Used()|
    }

    /** First physical address behind the bitmap: what boot reserves ends here. */
    function FirstUsable(): nat
      reads this
    {
      bitmapPhys + bitmapSize
    }

    /** Frame 0 and every frame that boot reserves. */
    ghost predicate Reserved()
      reads this, bitmap
    {
      forall f: nat :: f * PAGE < FirstUsable() && f < totalFrames ==> f in Set()
    }

    /** pmm_init: everything is reserved. `behind` is the byte behind the bitmap. */
    constructor (bitmapStart: nat, maxPhys: nat, behind: U8)
      ensures Valid() && Counted() && Reserved() && fresh(bitmap)
      ensures this.maxPhys == maxPhys && bitmapPhys == AlignUp(bitmapStart) && Used() == Below(totalFrames)
      ensures totalFrames == maxPhys / 4096 && bitmapSize == (totalFrames + 7) / 8
      ensures bitmapPhys % 4096 == 0 && bitmapStart <= bitmapPhys < bitmapStart + 4096
      ensures bitmap[bitmapSize] == behind
    {
      this.maxPhys := maxPhys;
      var total := maxPhys / PAGE;
      var size := BitmapSize(total);
      totalFrames := total;
      bitmapPhys := AlignUp(bitmapStart);
      bitmapSize := size;
      var b := new U8[size + 1](i => if i < size then 255 else behind);
      bitmap := b;
      usedFrames := total;
      new;
      hide Bit, BitsOf, Counted, Reserved, Below, Used;
      AllReserved(this);
    }

    /** pmm_mark_region. Exactly the visited frames become free or reserved, and
        the counter moves by the number of bits that changed. The last of them may be
        a page that memory ends in, whose bit can lie behind the bitmap. */
    method MarkRegion(phys: nat, length: nat, free: bool)
      requires Valid()
      modifies this`usedFrames, bitmap
      ensures Valid() && Region(maxPhys, phys, length) <= Below(totalFrames + 1)
      ensures All() == Marked(old(All()), Region(maxPhys, phys, length), free)
      ensures MarkedBy(old(All()), All(), maxPhys, phys, length, free)
      ensures usedFrames - |All()| == old(usedFrames) - |old(All())|
    {
      RegionInside(maxPhys, phys, length);
      MarkedMeans(maxPhys, phys, length, All(), free);
      EndBound(maxPhys, phys, length);
      forall fr: nat { LoopBound(maxPhys, phys, length, fr); }
      ghost var lo, hi := phys / PAGE, RegionEnd(maxPhys, phys, length);
      RegionFrames(maxPhys, phys, length, if hi < lo then lo else hi);
      hide BitsOf, Below, Region, RegionEnd, AlignUp, Frames, Marked, All, MarkedBy, CoversTail;
      var end := AlignUp(phys + length);
      if end > maxPhys { end := maxPhys; }
      MarkPages(AlignDown(phys), end, free, lo, hi);
    }

    /** The loop: every page from `start` on that starts before `end`. */
    method MarkPages(start: nat, end: nat, free: bool, ghost lo: nat, ghost hi: nat)
      requires Valid() && start == lo * PAGE && hi <= 8 * bitmap.Length
      requires forall fr: nat :: fr * PAGE < end <==> fr < hi
      modifies this`usedFrames, bitmap
      ensures Valid() && All() == Marked(old(All()), Frames(lo, if hi < lo then lo else hi), free)
      ensures usedFrames - |All()| == old(usedFrames) - |old(All())|
    {
      hide BitsOf, Frames, Marked, All, BitmapSize;
      var addr := start;
      ghost var fr := lo;
      NoFrames(lo);
      MarkedMore(All(), Frames(lo, lo), lo, free);
      while addr < end
        invariant Valid() && addr == fr * PAGE && lo <= fr && (fr == lo || fr <= hi)
        invariant All() == Marked(old(All()), Frames(lo, fr), free)
        invariant usedFrames - |All()| == old(usedFrames) - |old(All())|
        decreases end - addr
      {
        var frame := addr / PAGE;
        MarkFrame(frame, free);
        MoreFrames(lo, frame);
        MarkedMore(old(All()), Frames(lo, frame), frame, free);
        fr := fr + 1;
        addr := addr + PAGE;
      }
    }

    /** One turn of the loop: the bit and, if it changed, the counter. */
    method MarkFrame(frame: nat, free: bool)
      requires Valid() && frame < 8 * bitmap.Length
      modifies this`usedFrames, bitmap
      ensures Valid() && All() == Marked(old(All()), {frame}, free)
      ensures usedFrames - |All()| == old(usedFrames) - |old(All())|
    {
      hide BitsOf;
      var isFree := FrameFree(frame);
      ghost var was := All();
      if free {
        if !isFree {
          WriteBit(frame, false);
          assert |was| == |was - {frame}| + 1;
          usedFrames := usedFrames - 1;
        } else {
          assert was - {frame} == was;
        }
      } else {
        if isFree {
          WriteBit(frame, true);
          usedFrames := usedFrames + 1;
        } else {
          assert was + {frame} == was;
        }
      }
    }

    method FrameFree(f: nat) returns (free: bool)
      requires Valid() && f < 8 * bitmap.Length
      ensures free == (f !in All()) && (f < 8 * bitmapSize ==> free == (f !in Set()))
    {
      hide Bit;
      free := !Bit(bitmap[f / 8], f % 8);
    }

    /** `bitmap[byte] |= 1 << bit` or `&= ~(1 << bit)`. */
    method WriteBit(f: nat, on: bool)
      requires Valid() && f < 8 * bitmap.Length
      modifies bitmap
      ensures Valid() && All() == if on then old(All()) + {f} else old(All()) - {f}
      ensures f < 8 * bitmapSize ==> Set() == if on then old(Set()) + {f} else old(Set()) - {f}
    {
      hide Bit, BitsOf;
      FlipFrame(bitmap[..], f, on);
      bitmap[f / 8] := SetBit(bitmap[f / 8], f % 8, on);
      assert bitmap[..] == old(bitmap[..])[f / 8 := SetBit(old(bitmap[f / 8]), f % 8, on)];
    }

    /** pmm_reserve_boot_regions */
    method ReserveBoot()
      requires Valid()
      modifies this`usedFrames, bitmap
      ensures Valid() && Reserved() && Region(maxPhys, 0, FirstUsable()) <= Below(totalFrames + 1)
      ensures All() == old(All()) + Region(maxPhys, 0, FirstUsable())
      ensures forall f: nat :: f < totalFrames ==> (f in All() <==> f in old(All()) || f * 4096 < FirstUsable())
      ensures usedFrames - |All()| == old(usedFrames) - |old(All())|
    {
      hide BitsOf, Region, All;
      MarkRegion(0, bitmapPhys + bitmapSize, false);
      forall f: nat | f * PAGE < FirstUsable() && f < totalFrames ensures f in Set() {
        FromZero(maxPhys, FirstUsable(), f);
      }
    }

    /** pmm_alloc_page: the lowest free frame, now used; nothing changes when no
        frame is free. */
    method AllocPage() returns (phys: nat)
      requires Valid()
      modifies this`usedFrames, bitmap
      ensures Valid() && (old(Counted()) ==> Counted()) && (old(Reserved()) ==> Reserved()) && Drift() == old(Drift())
      ensures Below(totalFrames) <= old(Set()) ==> phys == 0 && Set() == old(Set()) && usedFrames == old(usedFrames)
      ensures !(Below(totalFrames) <= old(Set())) ==>
        var f := phys / PAGE;
        && phys % PAGE == 0 && f < totalFrames && f !in old(Set()) && (forall g: nat :: g < f ==> g in old(Set()))
        && Set() == old(Set()) + {f} && usedFrames == old(usedFrames) + 1
    {
      hide BitsOf, Bit, Below, Set, All;
      var byte := 0;
      while byte < bitmapSize
        invariant 0 <= byte <= bitmapSize && Valid() && All() == old(All()) && Set() == old(Set())
        invariant usedFrames == old(usedFrames)
        invariant forall g: nat :: g < 8 * byte ==> g in Set()
      {
        ByteFull(this, byte);
        if bitmap[byte] != 255 {
          var bit := 0;
          while bit < 8
            invariant 0 <= bit <= 8 && Valid() && All() == old(All()) && Set() == old(Set())
            invariant usedFrames == old(usedFrames)
            invariant forall g: nat :: g < 8 * byte + bit ==> g in Set()
          {
            var frame := byte * 8 + bit;
            var free := FrameFree(frame);
            if free {
              if frame >= totalFrames {
                AllBelow(totalFrames, Set());
                return 0;
              }
              NotAllBelow(totalFrames, Set(), frame);
              CountUp(All(), totalFrames, frame);
              WriteBit(frame, true);
              usedFrames := usedFrames + 1;
              return frame * PAGE;
            }
            bit := bit + 1;
          }
        }
        byte := byte + 1;
      }
      AllBelow(totalFrames, Set());
      return 0;
    }

    /** pmm_free_page. The four panics are the demands on its callers. They let the
        page pass that memory ends in; the counter then loses its meaning. */
    method FreePage(phys: nat)
      requires Valid()
      requires phys % PAGE == 0 && phys < maxPhys && phys / PAGE in All() && FirstUsable() <= phys
      modifies this`usedFrames, bitmap
      ensures Valid() && All() == old(All()) - {phys / PAGE} && usedFrames == old(usedFrames) - 1
      ensures phys / PAGE < totalFrames ==> Set() == old(Set()) - {phys / PAGE} && Drift() == old(Drift())
      ensures old(Counted()) ==> (Counted() <==> phys / PAGE < totalFrames)
      ensures old(Reserved()) ==> Reserved()
    {
      hide BitsOf, Bit, All, Below;
      var frame := phys / PAGE;
      assert frame <= totalFrames;
      CountDown(All(), totalFrames, frame);
      WriteBit(frame, false);
      usedFrames := usedFrames - 1;
      if old(Reserved()) {
        forall f: nat | f * PAGE < FirstUsable() && f < totalFrames ensures f in Set() { assert f in old(Set()); }
      }
    }
  }

  /** A full bitmap and the number of frames count each other. */
  lemma AllReserved(a: Allocator)
    requires a.Valid() && a.usedFrames == a.totalFrames && forall i :: 0 <= i < a.bitmapSize ==> a.bitmap[i] == 255
    ensures a.Counted() && a.Reserved() && a.Used() == Below(a.totalFrames)
  {
    hide Bit, BitsOf;
    FullBitmap(a.bitmap[..], a.bitmapSize);
    assert a.Used() == Below(a.totalFrames);
    BelowSize(a.totalFrames);
  }

  /** What clearing the bit of `frame` does to the count. */
  lemma CountDown(s: set<nat>, total: nat, frame: nat)
    requires frame in s
    ensures |(s - {frame}) * Below(total)| == |s * Below(total)| - if frame < total then 1 else 0
  {
    if frame < total {
      assert (s - {frame}) * Below(total) == s * Below(total) - {frame};
    } else {
      assert (s - {frame}) * Below(total) == s * Below(total);
    }
  }

  lemma ByteFull(a: Allocator, b: nat)
    requires a.Valid() && b < a.bitmapSize
    ensures a.bitmap[b] == 255 <==> forall g: nat :: 8 * b <= g < 8 * b + 8 ==> g in a.Set()
  {
    FullByte(a.bitmap[b]);
    hide Bit;
    if AllSet(a.bitmap[b], 8) {
      forall g: nat | 8 * b <= g < 8 * b + 8 ensures g in a.Set() { assert g / 8 == b && g % 8 < 8; }
    }
    if forall g: nat :: 8 * b <= g < 8 * b + 8 ==> g in a.Set() {
      forall k: nat | k < 8 ensures Bit(a.bitmap[b], k) {
        var g := 8 * b + k;
        assert g in a.Set() && g / 8 == b && g % 8 == k;
      }
    }
  }

  // ------------------------------------------------------------- accounting

  /** From bits `s` with an exact counter to bits `s'`, when only frames and the page
      behind the last whole frame were marked: the counter differs from the number of
      frames in use by the change of that page's bit. */
  lemma MarkAccounting(total: nat, s: set<nat>, s': set<nat>, used: int, used': int)
    requires used == |s * Below(total)| && used' - |s'| == used - |s|
    requires s - Below(total + 1) == s' - Below(total + 1)
    ensures used' == |s' * Below(total)| + Indicator(total in s') - Indicator(total in s)
  {
    SplitCount(total, s);
    SplitCount(total, s');
  }

  function Indicator(b: bool): int
  {
    if b then 1 else 0
  }

  lemma SplitCount(total: nat, s: set<nat>)
    ensures |s| == |s * Below(total)| + Indicator(total in s) + |s - Below(total + 1)|
  {
    var last := if total in s then {total} else {};
    assert s == s * Below(total) + last + (s - Below(total + 1));
  }

  /** A region reaches past the last whole frame exactly when memory ends inside
      a page and the region covers that page. */
  lemma RegionInside(maxPhys: nat, phys: nat, length: nat)
    ensures Region(maxPhys, phys, length) <= Below(maxPhys / PAGE + 1)
    ensures maxPhys / PAGE in Region(maxPhys, phys, length) <==> CoversTail(maxPhys, phys, length)
  {
  }

  lemma TailMeans(maxPhys: nat, phys: nat, length: nat)
    ensures CoversTail(maxPhys, phys, length) <==> maxPhys % 4096 != 0 && Meets(phys, length, maxPhys / 4096)
  {
  }

  /** Memory ends inside a page, and the region covers that page. */
  predicate CoversTail(maxPhys: nat, phys: nat, length: nat)
  {
    maxPhys % PAGE != 0 && AlignUp(phys + length) > maxPhys / PAGE * PAGE && phys / PAGE <= maxPhys / PAGE
  }

  lemma EndBound(maxPhys: nat, phys: nat, length: nat)
    ensures RegionEnd(maxPhys, phys, length) <= maxPhys / PAGE + 1
    ensures maxPhys / PAGE < 8 * (BitmapSize(maxPhys / PAGE) + 1)
  {
  }

  /** Marking it touches the byte behind the bitmap exactly when, besides, the bitmap
      has no bit to spare. */
  lemma StrayByte(maxPhys: nat, phys: nat, length: nat)
    ensures Region(maxPhys, phys, length) <= Below(8 * BitmapSize(maxPhys / PAGE)) <==>
              !CoversTail(maxPhys, phys, length) || maxPhys / PAGE % 8 != 0
  {
    RegionInside(maxPhys, phys, length);
    hide Region;
    var total := maxPhys / PAGE;
    assert total <= 8 * BitmapSize(total) && (total == 8 * BitmapSize(total) <==> total % 8 == 0);
  }

  // ------------------------------------------------------------- whole runs

  datatype MemRegion = MemRegion(phys: nat, length: nat)

  ghost predicate AnyCovers(maxPhys: nat, regions: seq<MemRegion>, n: nat)
    requires n <= |regions|
  {
    exists i :: 0 <= i < n && CoversTail(maxPhys, regions[i].phys, regions[i].length)
  }

  /** The bit of the page that memory ends in, after boot: the last call that covers the
      page decides. */
  ghost predicate TailBit(before: bool, maxPhys: nat, usable: seq<MemRegion>, firstUsable: nat,
                          reserved: seq<MemRegion>)
  {
    if CoversTail(maxPhys, 0, firstUsable) || AnyCovers(maxPhys, reserved, |reserved|) then true
    else before && !AnyCovers(maxPhys, usable, |usable|)
  }

  /** Whether the bit of that page is set before boot marks anything: the bitmap starts
      out full, the byte behind it may be anything. */
  predicate TailBefore(maxPhys: nat, behind: U8)
  {
    maxPhys / PAGE % 8 == 0 ==> Bit(behind, 0)
  }

  /** Marking led from bits `s` and counter `used` to `s'` and `used'`. */
  ghost predicate Tracks(total: nat, s: set<nat>, used: int, s': set<nat>, used': int)
  {
    used' - |s'| == used - |s| && s - Below(total + 1) == s' - Below(total + 1)
  }

  lemma TracksMark(total: nat, s: set<nat>, used: int, s1: set<nat>, used1: int, r: set<nat>, free: bool, s2: set<nat>,
                   used2: int)
    requires Tracks(total, s, used, s1, used1) && r <= Below(total + 1)
    requires s2 == Marked(s1, r, free) && used2 - |s2| == used1 - |s1|
    ensures Tracks(total, s, used, s2, used2)
    ensures total in s2 <==> if total in r then !free else total in s1
    ensures !free ==> s1 <= s2 && r <= s2
  {
    hide Below;
    assert s2 - Below(total + 1) == s1 - Below(total + 1);
  }

  /** One of the first `n` regions reaches into page `f`. */
  ghost predicate AnyMeets(regions: seq<MemRegion>, n: nat, f: nat)
    requires n <= |regions|
  {
    exists i :: 0 <= i < n && Meets(regions[i].phys, regions[i].length, f)
  }

  lemma OneMore(regions: seq<MemRegion>, n: nat, f: nat)
    requires n < |regions|
    ensures AnyMeets(regions, n + 1, f) <==> AnyMeets(regions, n, f) || Meets(regions[n].phys, regions[n].length, f)
  {
  }

  method FreeUsable(a: Allocator, usable: seq<MemRegion>)
    requires a.Valid()
    modifies a`usedFrames, a.bitmap
    ensures a.Valid() && Tracks(a.totalFrames, old(a.All()), old(a.usedFrames), a.All(), a.usedFrames)
    ensures a.totalFrames in a.All() <==>
              a.totalFrames in old(a.All()) && !AnyCovers(a.maxPhys, usable, |usable|)
    ensures forall f: nat :: f < a.totalFrames ==>
              (f in a.All() <==> f in old(a.All()) && !AnyMeets(usable, |usable|, f))
  {
    hide BitsOf, Below, Region, CoversTail, Bit, Allocator.All, Marked, Tracks, Meets, AnyMeets;
    NoneMeets(usable);
    assert Tracks(a.totalFrames, a.All(), a.usedFrames, a.All(), a.usedFrames) by {
      TracksSelf(a.totalFrames, a.All(), a.usedFrames);
    }
    for i := 0 to |usable|
      invariant a.Valid() && Tracks(a.totalFrames, old(a.All()), old(a.usedFrames), a.All(), a.usedFrames)
      invariant a.totalFrames in a.All() <==> a.totalFrames in old(a.All()) && !AnyCovers(a.maxPhys, usable, i)
      invariant forall f: nat :: f < a.totalFrames ==> (f in a.All() <==> f in old(a.All()) && !AnyMeets(usable, i, f))
    {
      forall f: nat { OneMore(usable, i, f); }
      ghost var s1, used1, r := a.All(), a.usedFrames, usable[i];
      RegionInside(a.maxPhys, r.phys, r.length);
      a.MarkRegion(usable[i].phys, usable[i].length, true);
      TracksMark(a.totalFrames, old(a.All()), old(a.usedFrames), s1, used1, Region(a.maxPhys, r.phys, r.length), true,
                 a.All(), a.usedFrames);
    }
  }

  lemma NoneMeets(regions: seq<MemRegion>)
    ensures forall f: nat :: !AnyMeets(regions, 0, f)
  {
  }

  lemma TracksSelf(total: nat, s: set<nat>, used: int)
    ensures Tracks(total, s, used, s, used)
  {
  }

  ghost predicate RegionIn(maxPhys: nat, r: MemRegion, s: set<nat>)
  {
    Region(maxPhys, r.phys, r.length) <= s
  }

  method ReserveRest(a: Allocator, reserved: seq<MemRegion>)
    requires a.Valid() && a.Reserved()
    modifies a`usedFrames, a.bitmap
    ensures a.Valid() && a.Reserved() && Tracks(a.totalFrames, old(a.All()), old(a.usedFrames), a.All(), a.usedFrames)
    ensures a.totalFrames in a.All() <==>
              a.totalFrames in old(a.All()) || AnyCovers(a.maxPhys, reserved, |reserved|)
    ensures forall i :: 0 <= i < |reserved| ==> RegionIn(a.maxPhys, reserved[i], a.All())
    ensures forall f: nat :: f < a.totalFrames ==>
              (f in a.All() <==> f in old(a.All()) || AnyMeets(reserved, |reserved|, f))
  {
    hide BitsOf, Below, Region, CoversTail, Bit, Allocator.All, Marked, Tracks, Meets, AnyMeets;
    NoneMeets(reserved);
    TracksSelf(a.totalFrames, a.All(), a.usedFrames);
    for i := 0 to |reserved|
      invariant a.Valid() && Tracks(a.totalFrames, old(a.All()), old(a.usedFrames), a.All(), a.usedFrames)
      invariant a.totalFrames in a.All() <==> a.totalFrames in old(a.All()) || AnyCovers(a.maxPhys, reserved, i)
      invariant old(a.All()) <= a.All() && forall j :: 0 <= j < i ==> RegionIn(a.maxPhys, reserved[j], a.All())
      invariant forall f: nat :: f < a.totalFrames ==> (f in a.All() <==> f in old(a.All()) || AnyMeets(reserved, i, f))
    {
      forall f: nat { OneMore(reserved, i, f); }
      ghost var s1, used1, r := a.All(), a.usedFrames, reserved[i];
      RegionInside(a.maxPhys, r.phys, r.length);
      a.MarkRegion(reserved[i].phys, reserved[i].length, false);
      TracksMark(a.totalFrames, old(a.All()), old(a.usedFrames), s1, used1, Region(a.maxPhys, r.phys, r.length), false,
                 a.All(), a.usedFrames);
    }
    assert old(a.Set()) <= a.Set();
  }

  /** Boot: reserve all, free the usable regions, reserve kernel and bitmap, then what
      the boot loader left. The counter is off by the change of the tail page's bit: it
      is exact on page-aligned memory, and otherwise exactly when that bit ends up as
      it was. */
  method Boot(bitmapStart: nat, maxPhys: nat, behind: U8, usable: seq<MemRegion>, reserved: seq<MemRegion>)
    returns (a: Allocator)
    ensures fresh(a) && fresh(a.bitmap) && a.Valid() && a.Reserved() && a.maxPhys == maxPhys
    ensures a.bitmapPhys == AlignUp(bitmapStart) && a.totalFrames == maxPhys / 4096
    ensures a.bitmapPhys % 4096 == 0 && bitmapStart <= a.bitmapPhys < bitmapStart + 4096
    ensures a.FirstUsable() == a.bitmapPhys + (a.totalFrames + 7) / 8
    ensures var before := TailBefore(maxPhys, behind);
            var after := TailBit(before, maxPhys, usable, a.FirstUsable(), reserved);
            && a.usedFrames == |a.Used()| + Indicator(after) - Indicator(before)
            && (a.Counted() <==> after == before)
            && (a.totalFrames in a.All() <==> after)
    ensures maxPhys % PAGE == 0 ==> a.Counted()
    ensures forall i :: 0 <= i < |reserved| ==> RegionIn(maxPhys, reserved[i], a.All())
    ensures forall f: nat :: f < a.totalFrames ==>
      (f !in a.Set() <==>
        && (exists i :: 0 <= i < |usable| && Meets(usable[i].phys, usable[i].length, f))
        && a.FirstUsable() <= f * 4096
        && !(exists i :: 0 <= i < |reserved| && Meets(reserved[i].phys, reserved[i].length, f)))
  {
    hide BitsOf, Below, Region, Bit, Allocator.All, Tracks, Marked, RegionIn, Meets;
    a := new Allocator(bitmapStart, maxPhys, behind);
    ghost var s0, used0 := a.All(), a.usedFrames;
    TailAtStart(a, behind);
    AllAtStart(a);
    FreeUsable(a, usable);
    ghost var s1, used1, r := a.All(), a.usedFrames, Region(maxPhys, 0, a.FirstUsable());
    RegionInside(maxPhys, 0, a.FirstUsable());
    a.ReserveBoot();
    ghost var s2, used2 := a.All(), a.usedFrames;
    MarkedOn(s1, r);
    TracksMark(a.totalFrames, s0, used0, s1, used1, r, false, s2, used2);
    ReserveRest(a, reserved);
    TracksTrans(a.totalFrames, s0, used0, s2, used2, a.All(), a.usedFrames);
    CountedIff(a, s0, used0);
    FreeFrames(a, s0, usable, reserved);
    if maxPhys % PAGE == 0 { AlignedTail(maxPhys, usable, reserved); }
  }

  lemma FreeFrames(a: Allocator, s0: set<nat>, usable: seq<MemRegion>, reserved: seq<MemRegion>)
    requires a.Valid() && forall f: nat :: f < a.totalFrames ==> f in s0
    requires forall f: nat :: f < a.totalFrames ==>
      (f in a.All() <==>
        || (f in s0 && !AnyMeets(usable, |usable|, f)) || f * 4096 < a.FirstUsable()
        || AnyMeets(reserved, |reserved|, f))
    ensures forall f: nat :: f < a.totalFrames ==>
      (f !in a.Set() <==>
        && (exists i :: 0 <= i < |usable| && Meets(usable[i].phys, usable[i].length, f))
        && a.FirstUsable() <= f * 4096
        && !(exists i :: 0 <= i < |reserved| && Meets(reserved[i].phys, reserved[i].length, f)))
  {
    hide BitsOf, Allocator.All, Meets;
    forall f: nat | f < a.totalFrames ensures f in a.Set() <==> f in a.All() { }
  }

  lemma MarkedOn(s: set<nat>, r: set<nat>)
    ensures Marked(s, r, false) == s + r
  {
  }

  lemma TracksTrans(total: nat, s: set<nat>, used: int, s1: set<nat>, used1: int, s2: set<nat>, used2: int)
    requires Tracks(total, s, used, s1, used1) && Tracks(total, s1, used1, s2, used2)
    ensures Tracks(total, s, used, s2, used2)
  {
  }

  /** Before anything is marked, the bit behind the last frame is one of the padding or
      the first of the byte behind the bitmap. */
  lemma TailAtStart(a: Allocator, behind: U8)
    requires a.Valid() && a.Counted() && a.bitmap[a.bitmapSize] == behind
    ensures a.totalFrames in a.All() <==> TailBefore(a.maxPhys, behind)
    ensures a.usedFrames == |a.All() * Below(a.totalFrames)|
    ensures forall f: nat :: a.totalFrames <= f < 8 * a.bitmapSize ==> f in a.All()
  {
    hide Bit;
    assert a.Used() == a.All() * Below(a.totalFrames);
    forall f: nat | a.totalFrames <= f < 8 * a.bitmapSize ensures f in a.All() { assert f in a.Set(); }
    if a.totalFrames % 8 == 0 {
      assert a.totalFrames / 8 == a.bitmapSize;
    } else {
      assert a.totalFrames in a.Set();
    }
  }

  lemma AllAtStart(a: Allocator)
    requires a.Valid() && a.Used() == Below(a.totalFrames)
    ensures forall f: nat :: f < a.totalFrames ==> f in a.All()
  {
    forall f: nat | f < a.totalFrames ensures f in a.All() { assert f in a.Used(); }
  }

  lemma CountedIff(a: Allocator, s: set<nat>, used: int)
    requires a.Valid() && Tracks(a.totalFrames, s, used, a.All(), a.usedFrames)
    requires used == |s * Below(a.totalFrames)|
    requires forall f: nat :: a.totalFrames <= f < 8 * a.bitmapSize ==> f in s
    ensures a.usedFrames == |a.Used()| + Indicator(a.totalFrames in a.All()) - Indicator(a.totalFrames in s)
    ensures a.Counted() <==> (a.totalFrames in a.All() <==> a.totalFrames in s)
  {
    hide BitsOf, Allocator.All;
    MarkAccounting(a.totalFrames, s, a.All(), used, a.usedFrames);
    assert a.Used() == a.All() * Below(a.totalFrames);
    forall f: nat | a.totalFrames < f < 8 * a.bitmapSize ensures f in a.Set() {
      assert f in s - Below(a.totalFrames + 1);
    }
  }

  lemma AlignedTail(maxPhys: nat, usable: seq<MemRegion>, reserved: seq<MemRegion>)
    requires maxPhys % PAGE == 0
    ensures !AnyCovers(maxPhys, usable, |usable|) && !AnyCovers(maxPhys, reserved, |reserved|)
    ensures forall phys, length :: !CoversTail(maxPhys, phys, length)
  {
  }

  /** Three pages and a byte of memory, all usable: after boot the counter is one below
      the number of frames in use. */
  method UnalignedMemoryMiscounts() returns (a: Allocator)
    ensures a.Valid() && a.usedFrames == |a.Used()| - 1
  {
    hide BitsOf, Below, Region, Bit, Allocator.All, RegionIn;
    var usable := [MemRegion(0, 12289)];
    a := Boot(0, 12289, 255, usable, []);
    assert CoversTail(12289, usable[0].phys, usable[0].length);
  }

  /** Eight pages and a byte: boot clears a bit of the byte behind the bitmap. */
  method StrayByteCleared() returns (a: Allocator)
    ensures a.Valid() && a.bitmap[a.bitmapSize] != 255
  {
    hide BitsOf, Below, Region, Bit, Allocator.All, RegionIn;
    var usable := [MemRegion(0, 32769)];
    a := Boot(0, 32769, 255, usable, []);
    assert CoversTail(32769, usable[0].phys, usable[0].length);
    TailClear(a);
  }

  lemma TailClear(a: Allocator)
    requires a.Valid() && a.totalFrames == 8 && a.bitmapSize == 1 && a.totalFrames !in a.All()
    ensures a.bitmap[a.bitmapSize] != 255
  {
    FullByte(255);
    hide Bit;
    assert AllSet(255, 8);
    assert a.bitmap[..][8 / 8] == a.bitmap[1];
  }

  datatype Op = Alloc | Free(index: nat)

  /** What callers hold: distinct frames in use, none of them reserved at boot. */
  ghost predicate Holding(a: Allocator, held: seq<nat>)
    reads a, a.bitmap
  {
    && (forall i :: 0 <= i < |held| ==>
         held[i] % PAGE == 0 && held[i] / PAGE in a.Set() && held[i] / PAGE < a.totalFrames
             && a.FirstUsable() <= held[i])
    && (forall i, j :: 0 <= i < j < |held| ==> held[i] != held[j])
  }

  /** The frames in use, and the addresses that callers hold. */
  datatype View = View(used: set<nat>, held: seq<nat>)

  ghost predicate Lowest(s: set<nat>, total: nat, f: nat)
  {
    f < total && f !in s && forall g: nat :: g < f ==> g in s
  }

  /** What one call does to them. */
  ghost predicate Did(total: nat, v: View, op: Op, v': View)
  {
    match op
    case Alloc =>
      if Below(total) <= v.used then v' == v
      else exists f: nat :: Lowest(v.used, total, f) && v' == View(v.used + {f}, v.held + [f * PAGE])
    case Free(i) =>
      if i < |v.held| then v' == View(v.used - {v.held[i] / PAGE}, v.held[..i] + v.held[i + 1..]) else v' == v
  }

  ghost predicate Traced(total: nat, trace: seq<View>, ops: seq<Op>)
  {
    |trace| == |ops| + 1 && forall i :: 0 <= i < |ops| ==> Did(total, trace[i], ops[i], trace[i + 1])
  }

  lemma TraceMore(total: nat, trace: seq<View>, ops: seq<Op>, n: nat, v: View)
    requires n < |ops| && Traced(total, trace, ops[..n]) && Did(total, trace[n], ops[n], v)
    ensures Traced(total, trace + [v], ops[..n + 1])
  {
    hide Did;
    var t := trace + [v];
    forall i | 0 <= i < n + 1 ensures Did(total, t[i], ops[..n + 1][i], t[i + 1]) {
      if i < n { assert Did(total, trace[i], ops[..n][i], trace[i + 1]); }
    }
  }

  /** Any run of allocations and frees after boot follows the calls one by one,
      each allocation taking the lowest free frame and failing only when every
      frame is in use; the counter stays exact, or as far off as boot left it, what
      boot reserved stays reserved, and no frame is ever held twice. */
  method Run(a: Allocator, ops: seq<Op>) returns (held: seq<nat>, ghost trace: seq<View>)
    requires a.Valid() && a.Reserved() && 0 < a.FirstUsable() && 0 < a.totalFrames
    modifies a`usedFrames, a.bitmap
    ensures a.Valid() && a.Reserved() && Holding(a, held)
    ensures a.Drift() == old(a.Drift()) && (old(a.Counted()) ==> a.Counted())
    ensures a.Set() == old(a.Set()) + HeldFrames(held)
    ensures Traced(a.totalFrames, trace, ops) && trace[0] == View(old(a.Set()), [])
    ensures trace[|ops|] == View(a.Set(), held)
  {
    hide BitsOf, HeldFrames, Allocator.Set, Allocator.Counted, Allocator.Drift, Allocator.Valid, Allocator.Reserved;
    hide Traced, Did;
    hide Holding;
    held := [];
    ghost var base := a.Set();
    trace := [View(base, held)];
    NoTrace(a.totalFrames, trace, ops);
    NothingHeld(a, base);
    for n := 0 to |ops|
      invariant a.Valid() && a.Reserved() && Holding(a, held) && HeldFrom(base, a.Set(), held)
      invariant a.Drift() == old(a.Drift()) && (old(a.Counted()) ==> a.Counted())
      invariant |trace| == n + 1 && Traced(a.totalFrames, trace, ops[..n]) && trace[0] == View(base, [])
      invariant trace[n] == View(a.Set(), held)
    {
      held := Call(a, held, ops[n], base);
      TraceMore(a.totalFrames, trace, ops, n, View(a.Set(), held));
      trace := trace + [View(a.Set(), held)];
    }
    assert ops[..|ops|] == ops;
  }

  /** The frames in use are those at the start and the held ones. */
  ghost predicate HeldFrom(base: set<nat>, s: set<nat>, held: seq<nat>)
  {
    s == base + HeldFrames(held) && base !! HeldFrames(held)
  }

  /** One call. */
  method Call(a: Allocator, held: seq<nat>, op: Op, ghost base: set<nat>) returns (held': seq<nat>)
    requires a.Valid() && a.Reserved() && 0 < a.FirstUsable() && 0 < a.totalFrames
    requires Holding(a, held) && HeldFrom(base, a.Set(), held)
    modifies a`usedFrames, a.bitmap
    ensures a.Valid() && a.Reserved() && Holding(a, held') && HeldFrom(base, a.Set(), held')
    ensures a.Drift() == old(a.Drift()) && (old(a.Counted()) ==> a.Counted())
    ensures Did(a.totalFrames, View(old(a.Set()), held), op, View(a.Set(), held'))
  {
    hide BitsOf, Below, Bit, HeldFrames, Allocator.Set, Allocator.Counted, Allocator.Drift;
    held' := held;
    match op
    case Alloc =>
      ghost var was := a.Set();
      var phys := a.AllocPage();
      if phys != 0 {
        assert phys / PAGE !in was && a.FirstUsable() <= phys by { NewFrameUsable(a, was, phys); }
        HeldMore(held, phys);
        held' := held + [phys];
        assert Lowest(was, a.totalFrames, phys / PAGE) && phys / PAGE * PAGE == phys;
      } else {
        assert 0 in was by { assert 0 * PAGE < a.FirstUsable(); }
      }
    case Free(i) =>
      if i < |held| {
        FreeBound(a, held[i]);
        SetInAll(a, held[i] / PAGE);
        HeldLess(held, i);
        a.FreePage(held[i]);
        held' := held[..i] + held[i + 1..];
      }
  }

  lemma NoTrace(total: nat, trace: seq<View>, ops: seq<Op>)
    requires |trace| == 1
    ensures Traced(total, trace, ops[..0])
  {
  }

  lemma NothingHeld(a: Allocator, base: set<nat>)
    ensures HeldFrom(base, base, []) && Holding(a, [])
  {
  }

  ghost function HeldFrames(held: seq<nat>): set<nat>
  {
    set i | 0 <= i < |held| :: held[i] / PAGE
  }

  lemma FreeBound(a: Allocator, phys: nat)
    requires a.Valid() && phys % PAGE == 0 && phys / PAGE < a.totalFrames
    ensures phys < a.maxPhys
  {
  }

  lemma SetInAll(a: Allocator, f: nat)
    requires f in a.Set()
    ensures f in a.All()
  {
  }

  lemma NewFrameUsable(a: Allocator, was: set<nat>, phys: nat)
    requires phys % PAGE == 0 && phys / PAGE < a.totalFrames && phys / PAGE !in was
    requires forall f: nat :: f * PAGE < a.FirstUsable() && f < a.totalFrames ==> f in was
    ensures a.FirstUsable() <= phys
  {
    assert phys == phys / PAGE * PAGE;
  }

  lemma HeldMore(held: seq<nat>, phys: nat)
    ensures HeldFrames(held + [phys]) == HeldFrames(held) + {phys / PAGE}
    ensures phys / PAGE !in HeldFrames(held) ==> forall i :: 0 <= i < |held| ==> held[i] != phys
  {
    var h := held + [phys];
    assert h[|held|] == phys;
    forall f | f in HeldFrames(held) ensures f in HeldFrames(h) {
      var i :| 0 <= i < |held| && held[i] / PAGE == f;
      assert h[i] == held[i];
    }
    forall i | 0 <= i < |held| ensures held[i] / PAGE in HeldFrames(held) {}
  }

  lemma HeldLess(held: seq<nat>, i: nat)
    requires i < |held| && forall j, k :: 0 <= j < k < |held| ==> held[j] != held[k]
    requires forall j :: 0 <= j < |held| ==> held[j] % PAGE == 0
    ensures HeldFrames(held[..i] + held[i + 1..]) == HeldFrames(held) - {held[i] / PAGE}
    ensures held[i] / PAGE in HeldFrames(held)
  {
    var h := held[..i] + held[i + 1..];
    forall f | f in HeldFrames(held) - {held[i] / PAGE} ensures f in HeldFrames(h) {
      var j :| 0 <= j < |held| && held[j] / PAGE == f;
      assert h[if j < i then j else j - 1] == held[j];
    }
    forall f | f in HeldFrames(h) ensures f in HeldFrames(held) - {held[i] / PAGE} {
      var j :| 0 <= j < |h| && h[j] / PAGE == f;
      var j' := if j < i then j else j + 1;
      assert held[j'] == h[j] && j' != i;
      assert held[j'] == held[j'] / PAGE * PAGE && held[i] == held[i] / PAGE * PAGE;
    }
  }
}
