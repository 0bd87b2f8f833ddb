/** The initial user stack of kernel/process/elf.c, and how _start in
    user/libkryos/startup.S reads it (section 3.4.1 of the System V AMD64 ABI). */
module ElfStack {
  import opened Bits
  import opened UserMemory

  const TOP: nat := 0x7FFF_FFFF_F000
  const BOTTOM: nat := 0x7FFF_FFFE_F000 // 16 pages below
  const MAX_ARGS: nat := 32

  type CString = seq<U8>

  predicate NoNuls(ss: seq<CString>)
  {
    forall i :: 0 <= i < |ss| ==> NoNul(ss[i])
  }

  predicate Lower(ws: seq<nat>)
  {
    forall i :: 0 <= i < |ws| ==> ws[i] < TOP
  }

  ghost predicate StackMapped(pages: Pages)
  {
    forall p :: BOTTOM / PAGE <= p < TOP / PAGE ==> p in pages
  }

  /** Nothing changed below `low` or above the stack. */
  ghost predicate OnlyStack(pages: Pages, pages': Pages, low: nat)
  {
    pages'.Keys == pages.Keys && forall x: nat :: x < low || TOP <= x ==> ByteAt(pages', x) == ByteAt(pages, x)
  }

  /** Every byte from `va` on is mapped, `n` in all. */
  ghost predicate Backs(pages: Pages, va: nat, n: nat)
  {
    forall x: nat :: va <= x < va + n ==> ByteAt(pages, x) >= 0
  }

  /** The bytes `s` stand at `va`, as far as there is memory for them. */
  ghost predicate Shows(pages: Pages, va: nat, s: seq<U8>)
  {
    forall i :: 0 <= i < |s| ==> ByteAt(pages, va + i) == s[i] || ByteAt(pages, va + i) < 0
  }

  lemma ShownHeld(pages: Pages, va: nat, s: seq<U8>)
    requires Shows(pages, va, s)
    ensures Holds(pages, va, s) <==> Backs(pages, va, |s|)
  {
    if Backs(pages, va, |s|) {
      forall i | 0 <= i < |s| ensures ByteAt(pages, va + i) == s[i] { assert ByteAt(pages, va + i) >= 0; }
    }
    if Holds(pages, va, s) {
      forall x: nat | va <= x < va + |s|
        ensures ByteAt(pages, x) >= 0
      {
        assert ByteAt(pages, va + (x - va)) == s[x - va];
      }
    }
  }

  lemma ShowsCat(pages: Pages, va: nat, a: seq<U8>, b: seq<U8>)
    ensures Shows(pages, va, a + b) <==> Shows(pages, va, a) && Shows(pages, va + |a|, b)
  {
    if Shows(pages, va, a + b) {
      forall i | 0 <= i < |a| ensures ByteAt(pages, va + i) == a[i] || ByteAt(pages, va + i) < 0 {
        assert (a + b)[i] == a[i];
      }
      forall i | 0 <= i < |b| ensures ByteAt(pages, va + |a| + i) == b[i] || ByteAt(pages, va + |a| + i) < 0 {
        assert (a + b)[|a| + i] == b[i];
      }
    }
    if Shows(pages, va, a) && Shows(pages, va + |a|, b) {
      forall i | 0 <= i < |a + b| ensures ByteAt(pages, va + i) == (a + b)[i] || ByteAt(pages, va + i) < 0 {
        if i >= |a| {
          assert ByteAt(pages, va + |a| + (i - |a|)) == b[i - |a|] || ByteAt(pages, va + |a| + (i - |a|)) < 0;
        }
      }
    }
  }

  // --------------------------------------------------------- strings and words

  /** NUL-terminated strings one after the other. */
  function Strings(ss: seq<CString>): seq<U8>
  {
    if ss == [] then [] else ss[0] + [0] + Strings(ss[1..])
  }

  /** Where string `i` starts when the last one ends at `end`. */
  function StringAddr(ss: seq<CString>, end: int, i: nat): int
    requires i <= |ss|
  {
    end - |Strings(ss[i..])|
  }

  function StringAddrs(ss: seq<CString>, end: int): (r: seq<int>)
    ensures |r| == |ss|
  {
    seq(|ss|, i requires 0 <= i < |ss| => StringAddr(ss, end, i))
  }

  function Words(ws: seq<nat>): (r: seq<U8>)
    ensures |r| == 8 * |ws|
  {
    if ws == [] then [] else LE(ws[0], 8) + Words(ws[1..])
  }

  lemma StringsStep(ss: seq<CString>, i: nat)
    requires i < |ss|
    ensures Strings(ss[i..]) == ss[i] + [0] + Strings(ss[i + 1..])
  {
    assert ss[i..][0] == ss[i] && ss[i..][1..] == ss[i + 1..];
  }

  lemma WordsStep(ws: seq<nat>, i: nat)
    requires i < |ws|
    ensures Words(ws[i..]) == LE(ws[i], 8) + Words(ws[i + 1..])
  {
    assert ws[i..][0] == ws[i] && ws[i..][1..] == ws[i + 1..];
  }

  /** Strings laid out in memory can be read back at their addresses. */
  lemma {:induction false} ReadStrings(pages: Pages, ss: seq<CString>, end: int, i: nat, k: nat)
    requires i <= k < |ss| && NoNuls(ss) && 0 <= StringAddr(ss, end, i)
    requires Holds(pages, StringAddr(ss, end, i), Strings(ss[i..]))
    ensures 0 <= StringAddr(ss, end, k) && StringAt(pages, StringAddr(ss, end, k), ss[k])
    decreases k - i
  {
    hide Holds;
    StringsStep(ss, i);
    var a := StringAddr(ss, end, i);
    HoldsCat(pages, a, ss[i] + [0], Strings(ss[i + 1..]));
    assert StringAddr(ss, end, i + 1) == a + |ss[i] + [0]|;
    if i == k {
    } else {
      ReadStrings(pages, ss, end, i + 1, k);
    }
  }

  lemma {:induction false} ReadWords(pages: Pages, va: nat, ws: seq<nat>, i: nat, k: nat)
    requires i <= k < |ws| && (forall j :: 0 <= j < |ws| ==> ws[j] < 0x1_0000_0000_0000_0000)
    requires Holds(pages, va + 8 * i, Words(ws[i..]))
    ensures WordAt(pages, va + 8 * k, ws[k])
    decreases k - i
  {
    hide Holds, WordAt;
    WordsStep(ws, i);
    HoldsCat(pages, va + 8 * i, LE(ws[i], 8), Words(ws[i + 1..]));
    if i < k { ReadWords(pages, va, ws, i + 1, k); } else { WordHeld(pages, va + 8 * i, ws[i]); }
  }

  // ------------------------------------------------------------------ pushing

  /** `rsp` points to `image`, which reaches up to the top of the stack, as far as
      there is memory for it. */
  ghost predicate Pushed(pages: Pages, rsp: nat, image: seq<U8>)
  {
    rsp <= TOP && |image| == TOP - rsp && Shows(pages, rsp, image)
  }

  lemma PushLemma(pages: Pages, pages': Pages, rsp: nat, image: seq<U8>, b: seq<U8>, low: nat)
    requires Pushed(pages, rsp, image) && low + |b| <= rsp && Written(pages, pages', rsp - |b|, b)
    ensures Pushed(pages', rsp - |b|, b + image) && OnlyStack(pages, pages', low)
  {
    forall i | 0 <= i < |image| ensures ByteAt(pages', rsp + i) == image[i] || ByteAt(pages', rsp + i) < 0 {
      assert ByteAt(pages', rsp + i) == ByteAt(pages, rsp + i);
    }
    forall i | 0 <= i < |b| ensures ByteAt(pages', rsp - |b| + i) == b[i] || ByteAt(pages', rsp - |b| + i) < 0 {
    }
    ShowsCat(pages', rsp - |b|, b, image);
  }

  lemma OnlyStackTrans(a: Pages, b: Pages, c: Pages, low: nat)
    requires OnlyStack(a, b, low) && OnlyStack(b, c, low)
    ensures OnlyStack(a, c, low)
  {
  }

  /** One `rsp_cur -= len; write_user_stack_bytes(...)`. */
  method Push(m: Space, rsp: nat, b: seq<U8>, ghost image: seq<U8>, ghost low: nat) returns (rsp': nat)
    requires m.Valid() && Pushed(m.pages, rsp, image) && low + |b| <= rsp
    modifies m`pages
    ensures m.Valid() && rsp' == rsp - |b| && Pushed(m.pages, rsp', b + image) && OnlyStack(old(m.pages), m.pages, low)
  {
    hide Pushed, OnlyStack, Written;
    ghost var p0 := m.pages;
    rsp' := rsp - |b|;
    m.WriteBytes(rsp', b);
    PushLemma(p0, m.pages, rsp, image, b, low);
  }

  /** The loop over strings, last one first; returns where each one starts. */
  method PushStrings(m: Space, rsp: nat, ss: seq<CString>, ghost image: seq<U8>, ghost low: nat)
    returns (rsp': nat, ptrs: seq<nat>)
    requires m.Valid() && Pushed(m.pages, rsp, image) && low + |Strings(ss)| <= rsp
    modifies m`pages
    ensures m.Valid() && rsp' == rsp - |Strings(ss)| && Pushed(m.pages, rsp', Strings(ss) + image)
    ensures OnlyStack(old(m.pages), m.pages, low) && ptrs == StringAddrs(ss, rsp) && Lower(ptrs)
  {
    hide Pushed, OnlyStack, Strings;
    ghost var p0 := m.pages;
    rsp', ptrs := rsp, [];
    ghost var n := |ss|;
    NoStrings(ss, image);
    SameStack(p0, low);
    PushedBounds(m.pages, rsp, image);
    var i := |ss|;
    while i > 0
      invariant 0 <= i <= |ss| && m.Valid() && OnlyStack(p0, m.pages, low) && |ptrs| == |ss| - i
      invariant rsp' == rsp - |Strings(ss[i..])| && Pushed(m.pages, rsp', Strings(ss[i..]) + image)
      invariant forall k :: 0 <= k < |ptrs| ==> ptrs[k] == StringAddr(ss, rsp, i + k) && ptrs[k] < TOP
    {
      i := i - 1;
      StringsStep(ss, i);
      StringsBound(ss, i);
      ghost var p1 := m.pages;
      ghost var before := Strings(ss[i + 1..]) + image;
      rsp' := Push(m, rsp', ss[i] + [0], before, low);
      OnlyStackTrans(p0, p1, m.pages, low);
      assert (ss[i] + [0]) + before == Strings(ss[i..]) + image;
      PushedBounds(m.pages, rsp', Strings(ss[i..]) + image);
      ptrs := [rsp'] + ptrs;
    }
    assert ss[0..] == ss;
    assert ptrs == StringAddrs(ss, rsp);
  }

  lemma NoStrings(ss: seq<CString>, image: seq<U8>)
    ensures Strings(ss[|ss|..]) == [] && Strings(ss[|ss|..]) + image == image
  {
  }

  lemma SameStack(pages: Pages, low: nat)
    ensures OnlyStack(pages, pages, low)
  {
  }

  lemma PushedBounds(pages: Pages, rsp: nat, image: seq<U8>)
    requires Pushed(pages, rsp, image)
    ensures rsp <= TOP && |image| == TOP - rsp && (image != [] ==> rsp < TOP)
  {
  }

  lemma {:induction false} StringsBound(ss: seq<CString>, i: nat)
    requires i <= |ss|
    ensures |Strings(ss[i..])| <= |Strings(ss)|
    decreases i
  {
    assert ss[0..] == ss;
    if i == 0 {
    } else {
      StringsBound(ss, i - 1);
      StringsStep(ss, i - 1);
    }
  }

  /** The loop over pointers, last one first. */
  method PushWords(m: Space, rsp: nat, ws: seq<nat>, ghost image: seq<U8>, ghost low: nat) returns (rsp': nat)
    requires m.Valid() && Pushed(m.pages, rsp, image) && low + 8 * |ws| <= rsp
    modifies m`pages
    ensures m.Valid() && rsp' == rsp - 8 * |ws| && Pushed(m.pages, rsp', Words(ws) + image)
    ensures OnlyStack(old(m.pages), m.pages, low)
  {
    hide Pushed, OnlyStack, Words;
    ghost var p0 := m.pages;
    rsp' := rsp;
    NoWords(ws, image);
    SameStack(p0, low);
    var i := |ws|;
    while i > 0
      invariant 0 <= i <= |ws| && m.Valid() && OnlyStack(p0, m.pages, low)
      invariant rsp' == rsp - 8 * (|ws| - i) && Pushed(m.pages, rsp', Words(ws[i..]) + image)
    {
      i := i - 1;
      WordsStep(ws, i);
      ghost var p1 := m.pages;
      ghost var before := Words(ws[i + 1..]) + image;
      rsp' := Push(m, rsp', LE(ws[i], 8), before, low);
      OnlyStackTrans(p0, p1, m.pages, low);
      assert LE(ws[i], 8) + before == Words(ws[i..]) + image;
    }
    assert ws[0..] == ws;
  }

  lemma NoWords(ws: seq<nat>, image: seq<U8>)
    ensures Words(ws[|ws|..]) == [] && Words(ws[|ws|..]) + image == image
  {
  }

  // ---------------------------------------------------------------- the stack

  /** A vector of pointers to strings, ended by a null pointer. */
  ghost predicate VectorAt(pages: Pages, va: nat, ss: seq<CString>)
  {
    (forall i :: 0 <= i < |ss| ==> EntryAt(pages, va + 8 * i, ss[i])) && WordAt(pages, va + 8 * |ss|, 0)
  }

  ghost predicate EntryAt(pages: Pages, va: nat, s: CString)
  {
    exists p: nat :: p != 0 && WordAt(pages, va, p) && StringAt(pages, p, s)
  }

  /** What _start finds: argc at rsp, argv right behind it, envp behind argv's null
      pointer. */
  ghost predicate Started(pages: Pages, rsp: nat, argv: seq<CString>, envp: seq<CString>)
  {
    && WordAt(pages, rsp, |argv|) && VectorAt(pages, rsp + 8, argv)
    && VectorAt(pages, rsp + 16 + 8 * |argv|, envp)
  }

  lemma {:induction false} VectorUnique(pages: Pages, va: nat, a: seq<CString>, b: seq<CString>)
    requires VectorAt(pages, va, a) && VectorAt(pages, va, b)
    ensures a == b
  {
    hide WordAt, StringAt;
    if |a| < |b| {
      assert EntryAt(pages, va + 8 * |a|, b[|a|]);
      var p: nat :| p != 0 && WordAt(pages, va + 8 * |a|, p) && StringAt(pages, p, b[|a|]);
      WordUnique(pages, va + 8 * |a|, 0, p);
    }
    if |b| < |a| {
      assert EntryAt(pages, va + 8 * |b|, a[|b|]);
      var p: nat :| p != 0 && WordAt(pages, va + 8 * |b|, p) && StringAt(pages, p, a[|b|]);
      WordUnique(pages, va + 8 * |b|, 0, p);
    }
    forall i | 0 <= i < |a| ensures a[i] == b[i] {
      assert EntryAt(pages, va + 8 * i, a[i]) && EntryAt(pages, va + 8 * i, b[i]);
      var p: nat :| p != 0 && WordAt(pages, va + 8 * i, p) && StringAt(pages, p, a[i]);
      var q: nat :| q != 0 && WordAt(pages, va + 8 * i, q) && StringAt(pages, q, b[i]);
      WordUnique(pages, va + 8 * i, p, q);
      StringUnique(pages, p, a[i], b[i]);
    }
  }

  /** What _start reads determines the arguments and the environment. */
  lemma StartedUnique(pages: Pages, rsp: nat, argv: seq<CString>, envp: seq<CString>, argv': seq<CString>,
                      envp': seq<CString>)
    requires Started(pages, rsp, argv, envp) && Started(pages, rsp, argv', envp')
    ensures argv == argv' && envp == envp'
  {
    hide WordAt, VectorAt;
    VectorUnique(pages, rsp + 8, argv, argv');
    VectorUnique(pages, rsp + 16 + 8 * |argv|, envp, envp');
  }

  function AlignDown(x: nat): nat
  {
    x / 16 * 16
  }

  /** The strings, their pointers, two null pointers and argc fit the stack. */
  predicate Fits(argv: seq<CString>, envp: seq<CString>)
  {
    |Strings(argv)| + |Strings(envp)| <= TOP - BOTTOM
    && BOTTOM + 8 * (|argv| + |envp| + 3) <= AlignDown(TOP - |Strings(argv)| - |Strings(envp)|)
  }

  function Truncated(ss: seq<CString>): seq<CString>
  {
    if |ss| > MAX_ARGS then ss[..MAX_ARGS] else ss
  }

  /** The first 32 are kept. */
  lemma TruncatedMeans(ss: seq<CString>)
    ensures |Truncated(ss)| == (if |ss| < 32 then |ss| else 32)
    ensures forall i :: 0 <= i < |Truncated(ss)| ==> Truncated(ss)[i] == ss[i]
  {
  }

  /** What stands at `va`, with zeros where there is no memory. */
  function Padding(pages: Pages, va: nat, n: nat): (r: seq<U8>)
    ensures |r| == n && forall i :: 0 <= i < n ==> r[i] == PadByte(pages, va + i)
  {
    seq<U8>(n, i requires 0 <= i < n => PadByte(pages, va + i))
  }

  function PadByte(pages: Pages, x: nat): U8
  {
    if ByteAt(pages, x) >= 0 then ByteAt(pages, x) else 0
  }

  lemma PadLemma(pages: Pages, rsp: nat, image: seq<U8>) returns (pad: seq<U8>)
    requires Pushed(pages, rsp, image)
    ensures Pushed(pages, AlignDown(rsp), pad + image)
  {
    pad := Padding(pages, AlignDown(rsp), rsp - AlignDown(rsp));
    assert Shows(pages, AlignDown(rsp), pad);
    ShowsCat(pages, AlignDown(rsp), pad, image);
  }

  /** The strings take less than the user half of the address space. */
  predicate Sized(argv: seq<CString>, envp: seq<CString>)
  {
    |Strings(argv)| + |Strings(envp)| + 1024 <= TOP
  }

  /** Where the stack pointer ends up. */
  function StackPointer(argv: seq<CString>, envp: seq<CString>): nat
    requires Sized(argv, envp) && |argv| <= MAX_ARGS && |envp| <= MAX_ARGS
  {
    AlignDown(TOP - |Strings(argv)| - |Strings(envp)|) - 8 * (|argv| + |envp| + 3)
  }

  /** The words are pushed below an address that is a multiple of 16, so the stack
      pointer is one exactly for an odd number of arguments and environment strings.
      It lies as close below the strings as that allows. */
  lemma StackPointerMeans(argv: seq<CString>, envp: seq<CString>)
    requires Sized(argv, envp) && |argv| <= MAX_ARGS && |envp| <= MAX_ARGS
    ensures var rsp, strings := StackPointer(argv, envp), TOP - |Strings(argv)| - |Strings(envp)|;
            && rsp % 8 == 0 && (rsp % 16 == 0 <==> (|argv| + |envp|) % 2 == 1)
            && rsp + 8 * (|argv| + |envp| + 3) <= strings < rsp + 8 * (|argv| + |envp| + 3) + 16
  {
    hide Strings;
    var a := AlignDown(TOP - |Strings(argv)| - |Strings(envp)|);
    var n := |argv| + |envp| + 3;
    assert a % 16 == 0;
    assert (a - 8 * n) % 16 == 0 <==> n % 2 == 0;
  }

  /** There is memory for the strings and for the words below them. */
  ghost predicate Backed(pages: Pages, argv: seq<CString>, envp: seq<CString>)
    requires Sized(argv, envp) && |argv| <= MAX_ARGS && |envp| <= MAX_ARGS
  {
    && Backs(pages, StackPointer(argv, envp), 8 * (|argv| + |envp| + 3))
    && Backs(pages, TOP - |Strings(envp)| - |Strings(argv)|, |Strings(argv)|)
    && Backs(pages, TOP - |Strings(envp)|, |Strings(envp)|)
  }

  /** The sixteen pages are memory enough for arguments that fit them. */
  lemma FitsBacked(pages: Pages, argv: seq<CString>, envp: seq<CString>)
    requires StackMapped(pages) && Fits(argv, envp) && |argv| <= MAX_ARGS && |envp| <= MAX_ARGS
    ensures Sized(argv, envp) && Backed(pages, argv, envp) && BOTTOM <= StackPointer(argv, envp)
  {
    hide Strings;
    assert Backs(pages, BOTTOM, TOP - BOTTOM) by {
      forall x: nat | BOTTOM <= x < TOP ensures ByteAt(pages, x) >= 0 { assert BOTTOM / PAGE <= x / PAGE < TOP / PAGE; }
    }
  }

  /** An argument of 65536 bytes leaves the stack pointer in the page below the stack. */
  lemma LongArgument(pages: Pages, s: CString)
    requires |s| == 65536 && BOTTOM / PAGE - 1 !in pages
    ensures Sized([s], []) && !Backed(pages, [s], [])
  {
    assert [s][1..] == [] && Strings([s]) == s + [0] + Strings([]);
    var rsp := StackPointer([s], []);
    assert rsp / PAGE == BOTTOM / PAGE - 1 && ByteAt(pages, rsp) == -1;
  }

  /** The argument part of elf_load_image, for arguments of any number and length:
      what _start reads from the stack is exactly argc, argv and envp, of each at most
      32, exactly when there is memory for them. Bytes without memory are dropped, and
      nothing below the stack pointer changes. */
  method BuildStack(m: Space, args: seq<CString>, env: seq<CString>) returns (rsp: nat)
    requires m.Valid() && NoNuls(args) && NoNuls(env) && Sized(Truncated(args), Truncated(env))
    modifies m`pages
    ensures m.Valid() && rsp == StackPointer(Truncated(args), Truncated(env)) && OnlyStack(old(m.pages), m.pages, rsp)
    ensures Started(m.pages, rsp, Truncated(args), Truncated(env)) <==> Backed(m.pages, Truncated(args), Truncated(env))
  {
    hide Pushed, OnlyStack, Strings, Words, Started, Backed;
    var argv, envp := Truncated(args), Truncated(env);
    ghost var p0, low := m.pages, StackPointer(argv, envp);
    Untouched(p0, low);
    var envPtrs, argvPtrs;
    rsp, envPtrs := PushStrings(m, TOP, envp, [], low);
    ghost var p1, strings, mid := m.pages, Strings(envp) + [], rsp;
    rsp, argvPtrs := PushStrings(m, rsp, argv, strings, low);
    OnlyStackTrans(p0, p1, m.pages, low);
    strings := Strings(argv) + strings;
    ghost var pad := PadLemma(m.pages, rsp, strings);
    ghost var p2 := m.pages;
    rsp := AlignDown(rsp);
    ghost var ws := StackWords(|argv|, argvPtrs, envPtrs);
    rsp := PushAll(m, rsp, |argv|, argvPtrs, envPtrs, pad + strings, low);
    OnlyStackTrans(p0, p2, m.pages, low);
    StackRead(m.pages, rsp, argv, envp, argvPtrs, envPtrs, pad, mid);
  }

  lemma Untouched(pages: Pages, low: nat)
    ensures Pushed(pages, TOP, []) && OnlyStack(pages, pages, low)
  {
  }

  /** The words below the strings, from rsp upwards. */
  function StackWords(argc: nat, argv: seq<nat>, envp: seq<nat>): seq<nat>
  {
    [argc] + argv + [0] + envp + [0]
  }

  /** Null, envp, null, argv, argc, pushed in that order. */
  method PushAll(m: Space, rsp: nat, argc: nat, argv: seq<nat>, envp: seq<nat>, ghost image: seq<U8>, ghost low: nat)
    returns (rsp': nat)
    requires m.Valid() && Pushed(m.pages, rsp, image) && low + 8 * (|argv| + |envp| + 3) <= rsp
    modifies m`pages
    ensures m.Valid() && OnlyStack(old(m.pages), m.pages, low) && rsp' == rsp - 8 * (|argv| + |envp| + 3)
    ensures Pushed(m.pages, rsp', Words(StackWords(argc, argv, envp)) + image)
  {
    hide Pushed, OnlyStack, Words;
    ghost var p0 := m.pages;
    rsp' := PushWords(m, rsp, [0], image, low);
    ghost var p1, i1 := m.pages, Words([0]) + image;
    rsp' := PushWords(m, rsp', envp, i1, low);
    ghost var p2, i2 := m.pages, Words(envp) + i1;
    OnlyStackTrans(p0, p1, p2, low);
    rsp' := PushWords(m, rsp', [0], i2, low);
    ghost var p3, i3 := m.pages, Words([0]) + i2;
    OnlyStackTrans(p0, p2, p3, low);
    rsp' := PushWords(m, rsp', argv, i3, low);
    ghost var p4, i4 := m.pages, Words(argv) + i3;
    OnlyStackTrans(p0, p3, p4, low);
    rsp' := PushWords(m, rsp', [argc], i4, low);
    OnlyStackTrans(p0, p4, m.pages, low);
    WordsAll(argc, argv, envp);
    assert Words([argc]) + i4 == Words(StackWords(argc, argv, envp)) + image;
  }

  lemma {:induction false} WordsCat(a: seq<nat>, b: seq<nat>)
    ensures Words(a + b) == Words(a) + Words(b)
    decreases |a|
  {
    if a == [] {
      assert a + b == b;
    } else {
      assert (a + b)[0] == a[0] && (a + b)[1..] == a[1..] + b;
      WordsCat(a[1..], b);
    }
  }

  lemma WordsAll(argc: nat, argv: seq<nat>, envp: seq<nat>)
    ensures Words([argc] + argv + [0] + envp + [0]) ==
              Words([argc]) + Words(argv) + Words([0]) + Words(envp) + Words([0])
  {
    hide Words;
    WordsCat([argc] + argv + [0] + envp, [0]);
    WordsCat([argc] + argv + [0], envp);
    WordsCat([argc] + argv, [0]);
    WordsCat([argc], argv);
  }

  /** Reading the finished image. */
  lemma StackRead(pages: Pages, rsp: nat, argv: seq<CString>, envp: seq<CString>, argvPtrs: seq<nat>, envPtrs: seq<nat>,
                  pad: seq<U8>, mid: nat)
    requires NoNuls(argv) && NoNuls(envp) && Sized(argv, envp) && |argv| <= MAX_ARGS && |envp| <= MAX_ARGS
    requires mid == TOP - |Strings(envp)| && argvPtrs == StringAddrs(argv, mid) && envPtrs == StringAddrs(envp, TOP)
    requires Lower(argvPtrs) && Lower(envPtrs) && rsp == StackPointer(argv, envp)
    requires var ws := Words(StackWords(|argv|, argvPtrs, envPtrs));
             Pushed(pages, rsp, ws + (pad + (Strings(argv) + (Strings(envp) + []))))
    ensures Started(pages, rsp, argv, envp) <==> Backed(pages, argv, envp)
  {
    hide Words, Strings, Holds, Shows, Backs, Started, StringAddrs, Pushed, NoNuls, Lower, StackPointer, Sized;
    var ws := Words(StackWords(|argv|, argvPtrs, envPtrs));
    PushedParts(pages, rsp, ws, pad, Strings(argv), Strings(envp));
    ShownHeld(pages, rsp, ws);
    ShownHeld(pages, mid - |Strings(argv)|, Strings(argv));
    ShownHeld(pages, mid, Strings(envp));
    SmallStack(argv, envp);
    if Backed(pages, argv, envp) {
      PartsRead(pages, rsp, argv, envp, argvPtrs, envPtrs, mid);
    }
    if Started(pages, rsp, argv, envp) {
      StartedBacked(pages, rsp, argv, envp, argvPtrs, envPtrs, mid);
    }
  }

  lemma SmallStack(argv: seq<CString>, envp: seq<CString>)
    requires Sized(argv, envp)
    ensures |Strings(envp)| < TOP && |Strings(argv)| < TOP - |Strings(envp)|
  {
  }

  /** What _start can read is in memory. */
  lemma StartedBacked(pages: Pages, rsp: nat, argv: seq<CString>, envp: seq<CString>, argvPtrs: seq<nat>,
                      envPtrs: seq<nat>, mid: nat)
    requires Started(pages, rsp, argv, envp) && |argv| <= MAX_ARGS && |envp| <= MAX_ARGS
    requires Sized(argv, envp) && rsp == StackPointer(argv, envp) && mid == TOP - |Strings(envp)|
    requires argvPtrs == StringAddrs(argv, mid) && envPtrs == StringAddrs(envp, TOP)
    requires Lower(argvPtrs) && Lower(envPtrs)
    requires Backs(pages, rsp, 8 * (|argv| + |envp| + 3)) ==>
               Holds(pages, rsp, Words(StackWords(|argv|, argvPtrs, envPtrs)))
    ensures Backed(pages, argv, envp)
  {
    hide Words, Strings, Holds, WordAt, StringAddrs, StackWords, Lower, StackPointer, Sized;
    WordsBacked(pages, rsp, argv, envp);
    WordsRead(pages, rsp, |argv|, argvPtrs, envPtrs);
    SmallStack(argv, envp);
    VectorBacked(pages, rsp + 8, argv, argvPtrs, mid);
    VectorBacked(pages, rsp + 16 + 8 * |argv|, envp, envPtrs, TOP);
  }

  lemma WordBacked(pages: Pages, va: nat, w: nat)
    requires WordAt(pages, va, w)
    ensures Backs(pages, va, 8)
  {
    var s: seq<U8> :| |s| == 8 && Holds(pages, va, s) && UnLE(s) == w;
    forall x: nat | va <= x < va + 8 ensures ByteAt(pages, x) >= 0 { assert ByteAt(pages, va + (x - va)) == s[x - va]; }
  }

  lemma WordsBacked(pages: Pages, rsp: nat, argv: seq<CString>, envp: seq<CString>)
    requires Started(pages, rsp, argv, envp)
    ensures Backs(pages, rsp, 8 * (|argv| + |envp| + 3))
  {
    hide WordAt, StringAt;
    WordBacked(pages, rsp, |argv|);
    VectorWords(pages, rsp + 8, argv);
    VectorWords(pages, rsp + 16 + 8 * |argv|, envp);
  }

  lemma VectorWords(pages: Pages, va: nat, ss: seq<CString>)
    requires VectorAt(pages, va, ss)
    ensures Backs(pages, va, 8 * |ss| + 8)
  {
    hide WordAt, StringAt;
    forall x: nat | va <= x < va + 8 * |ss| + 8 ensures ByteAt(pages, x) >= 0 {
      var i := (x - va) / 8;
      if i < |ss| {
        assert EntryAt(pages, va + 8 * i, ss[i]);
        var p: nat :| p != 0 && WordAt(pages, va + 8 * i, p) && StringAt(pages, p, ss[i]);
        WordBacked(pages, va + 8 * i, p);
      } else {
        WordBacked(pages, va + 8 * |ss|, 0);
      }
    }
  }

  /** The strings that a vector leads to are in memory. */
  lemma VectorBacked(pages: Pages, va: nat, ss: seq<CString>, ptrs: seq<nat>, end: nat)
    requires VectorAt(pages, va, ss) && ptrs == StringAddrs(ss, end) && WordsAt(pages, va, ptrs) && |Strings(ss)| < end
    ensures Backs(pages, end - |Strings(ss)|, |Strings(ss)|)
  {
    hide WordAt, StringAt, Strings;
    forall k | 0 <= k < |ss| ensures 0 <= StringAddr(ss, end, k) && StringAt(pages, StringAddr(ss, end, k), ss[k]) {
      assert EntryAt(pages, va + 8 * k, ss[k]);
      var p: nat :| p != 0 && WordAt(pages, va + 8 * k, p) && StringAt(pages, p, ss[k]);
      assert WordAt(pages, va + 8 * k, ptrs[k]);
      WordUnique(pages, va + 8 * k, p, ptrs[k]);
    }
    assert ss[0..] == ss;
    StringsBacked(pages, ss, end, 0);
  }

  lemma {:induction false} StringsBacked(pages: Pages, ss: seq<CString>, end: nat, i: nat)
    requires i <= |ss| && 0 <= StringAddr(ss, end, i)
    requires forall k :: i <= k < |ss| ==> 0 <= StringAddr(ss, end, k) && StringAt(pages, StringAddr(ss, end, k), ss[k])
    ensures Backs(pages, StringAddr(ss, end, i), |Strings(ss[i..])|)
    decreases |ss| - i
  {
    if i == |ss| {
      assert ss[i..] == [];
    } else {
      StringsStep(ss, i);
      var a := StringAddr(ss, end, i);
      assert StringAddr(ss, end, i + 1) == a + |ss[i]| + 1;
      StringsBacked(pages, ss, end, i + 1);
      forall x: nat | a <= x < a + |ss[i]| + 1 ensures ByteAt(pages, x) >= 0 {
        assert ByteAt(pages, a + (x - a)) == (ss[i] + [0])[x - a];
      }
    }
  }

  lemma PartsRead(pages: Pages, rsp: nat, argv: seq<CString>, envp: seq<CString>, argvPtrs: seq<nat>, envPtrs: seq<nat>,
                  mid: nat)
    requires NoNuls(argv) && NoNuls(envp)
    requires |Strings(envp)| < TOP && |Strings(argv)| < mid && |argv| < TOP
    requires argvPtrs == StringAddrs(argv, mid) && envPtrs == StringAddrs(envp, TOP)
    requires Lower(argvPtrs) && Lower(envPtrs)
    requires Holds(pages, rsp, Words(StackWords(|argv|, argvPtrs, envPtrs)))
    requires Holds(pages, mid - |Strings(argv)|, Strings(argv)) && Holds(pages, TOP - |Strings(envp)|, Strings(envp))
    ensures Started(pages, rsp, argv, envp)
  {
    hide Words, Strings, Holds, WordAt, WordsAt, VectorAt, StringAddrs, StackWords, NoNuls, Lower;
    WordsRead(pages, rsp, |argv|, argvPtrs, envPtrs);
    ReadVector(pages, rsp + 8, argv, argvPtrs, mid);
    ReadVector(pages, rsp + 16 + 8 * |argv|, envp, envPtrs, TOP);
  }

  /** The words, read one vector after the other. */
  lemma WordsRead(pages: Pages, rsp: nat, n: nat, a: seq<nat>, b: seq<nat>)
    requires Holds(pages, rsp, Words(StackWords(n, a, b))) && n < TOP
    requires Lower(a) && Lower(b)
    ensures WordAt(pages, rsp, n)
    ensures WordsAt(pages, rsp + 8, a) && WordAt(pages, rsp + 8 + 8 * |a|, 0)
    ensures WordsAt(pages, rsp + 16 + 8 * |a|, b) && WordAt(pages, rsp + 16 + 8 * |a| + 8 * |b|, 0)
  {
    hide Words, Holds, WordAt, WordsAt;
    WordsAll(n, a, b);
    var z := Words([0]);
    HoldsCat(pages, rsp, Words([n]) + Words(a) + z + Words(b), z);
    HoldsCat(pages, rsp, Words([n]) + Words(a) + z, Words(b));
    HoldsCat(pages, rsp, Words([n]) + Words(a), z);
    HoldsCat(pages, rsp, Words([n]), Words(a));
    OneWord(pages, rsp, n);
    AllWords(pages, rsp + 8, a);
    OneWord(pages, rsp + 8 + 8 * |a|, 0);
    AllWords(pages, rsp + 16 + 8 * |a|, b);
    OneWord(pages, rsp + 16 + 8 * |a| + 8 * |b|, 0);
  }

  lemma OneWord(pages: Pages, va: nat, w: nat)
    requires Holds(pages, va, Words([w])) && w < TOP
    ensures WordAt(pages, va, w)
  {
    hide Words, Holds, WordAt;
    assert [w][0..] == [w];
    ReadWords(pages, va, [w], 0, 0);
  }

  ghost predicate WordsAt(pages: Pages, va: nat, ws: seq<nat>)
  {
    forall k :: 0 <= k < |ws| ==> WordAt(pages, va + 8 * k, ws[k])
  }

  lemma PushedParts(pages: Pages, rsp: nat, ws: seq<U8>, pad: seq<U8>, a: seq<U8>, e: seq<U8>)
    requires Pushed(pages, rsp, ws + (pad + (a + (e + []))))
    ensures |a| + |e| <= TOP && Shows(pages, rsp, ws) && Shows(pages, TOP - |e| - |a|, a) && Shows(pages, TOP - |e|, e)
  {
    hide Shows;
    ImageParts(pages, rsp, ws, pad, a, e);
  }

  lemma ImageParts(pages: Pages, rsp: nat, ws: seq<U8>, pad: seq<U8>, a: seq<U8>, e: seq<U8>)
    requires Shows(pages, rsp, ws + (pad + (a + (e + [])))) && |ws + (pad + (a + (e + [])))| == TOP - rsp <= TOP
    ensures |a| + |e| <= TOP && Shows(pages, rsp, ws) && Shows(pages, TOP - |e| - |a|, a) && Shows(pages, TOP - |e|, e)
  {
    hide Shows;
    assert e + [] == e;
    ShowsCat(pages, rsp, ws, pad + (a + e));
    ShowsCat(pages, rsp + |ws|, pad, a + e);
    ShowsCat(pages, rsp + |ws| + |pad|, a, e);
  }

  lemma AllWords(pages: Pages, rsp: nat, ws: seq<nat>)
    requires Holds(pages, rsp, Words(ws)) && Lower(ws)
    ensures WordsAt(pages, rsp, ws)
  {
    hide Words, Holds, WordAt;
    assert ws[0..] == ws;
    forall k | 0 <= k < |ws| ensures WordAt(pages, rsp + 8 * k, ws[k]) { ReadWords(pages, rsp, ws, 0, k); }
  }

  /** Pointers in memory, and the strings they point to. */
  lemma ReadVector(pages: Pages, va: nat, ss: seq<CString>, ptrs: seq<nat>, end: nat)
    requires ptrs == StringAddrs(ss, end) && WordsAt(pages, va, ptrs) && WordAt(pages, va + 8 * |ss|, 0)
    requires NoNuls(ss) && |Strings(ss)| < end && Holds(pages, end - |Strings(ss)|, Strings(ss))
    ensures VectorAt(pages, va, ss)
  {
    hide Strings, Holds, WordAt, StringAt;
    assert ss[0..] == ss;
    forall k | 0 <= k < |ss| ensures EntryAt(pages, va + 8 * k, ss[k]) {
      ReadStrings(pages, ss, end, 0, k);
      StringsBound(ss, k);
      var p: nat := ptrs[k];
      assert p == StringAddr(ss, end, k) && p != 0 && WordAt(pages, va + 8 * k, p);
    }
  }
}
