/** User memory as an address space shows it: zeroed pages mapped on demand, bytes
    written through them, little-endian words and strings read back. */
module UserMemory {
  import opened Bits

  const PAGE: nat := 4096

  type Page = s: seq<U8> | |s| == 4096 witness seq(4096, _ => 0)

  type Pages = map<nat, Page>

  datatype Perm = Perm(write: bool, exec: bool)

  function ZeroPage(): (p: Page)
    ensures forall i :: 0 <= i < 4096 ==> p[i] == 0
  {
    seq(4096, _ => 0)
  }

  /** The byte at `va`, or -1 where nothing is mapped. */
  function ByteAt(pages: Pages, va: nat): (b: int)
    ensures -1 <= b < 256
  {
    if va / PAGE in pages then pages[va / PAGE][va % PAGE] else -1
  }

  /** The bytes `s` stand at `va`. */
  ghost predicate Holds(pages: Pages, va: nat, s: seq<U8>)
  {
    forall i :: 0 <= i < |s| ==> ByteAt(pages, va + i) == s[i]
  }

  // -------------------------------------------------------------------- words

  function Pow256(k: nat): nat
  {
    if k == 0 then 1 else 256 * Pow256(k - 1)
  }

  function LE(n: nat, k: nat): (s: seq<U8>)
    ensures |s| == k
  {
    if k == 0 then [] else [n % 256] + LE(n / 256, k - 1)
  }

  function UnLE(s: seq<U8>): nat
  {
    if s == [] then 0 else s[0] + 256 * UnLE(s[1..])
  }

  lemma {:induction false} UnLELE(n: nat, k: nat)
    requires n < Pow256(k)
    ensures UnLE(LE(n, k)) == n
    decreases k
  {
    if k == 0 {
    } else {
      assert n / 256 < Pow256(k - 1);
      UnLELE(n / 256, k - 1);
      assert LE(n, k)[1..] == LE(n / 256, k - 1);
    }
  }

  lemma Pow8()
    ensures Pow256(8) == 0x1_0000_0000_0000_0000
  {
    assert Pow256(2) == 65536;
    assert Pow256(4) == 65536 * 65536;
    assert Pow256(6) == 65536 * Pow256(4);
  }

  /** A little-endian word at `va`. */
  ghost predicate WordAt(pages: Pages, va: nat, w: nat)
  {
    exists s: seq<U8> :: |s| == 8 && Holds(pages, va, s) && UnLE(s) == w
  }

  lemma WordHeld(pages: Pages, va: nat, w: nat)
    requires w < 0x1_0000_0000_0000_0000 && Holds(pages, va, LE(w, 8))
    ensures WordAt(pages, va, w)
  {
    Pow8();
    UnLELE(w, 8);
  }

  /** A word is read in one way only. */
  lemma WordUnique(pages: Pages, va: nat, v: nat, w: nat)
    requires WordAt(pages, va, v) && WordAt(pages, va, w)
    ensures v == w
  {
    hide UnLE;
    var s: seq<U8> :| |s| == 8 && Holds(pages, va, s) && UnLE(s) == v;
    var u: seq<U8> :| |u| == 8 && Holds(pages, va, u) && UnLE(u) == w;
    forall i | 0 <= i < 8 ensures s[i] == u[i] { assert ByteAt(pages, va + i) == s[i]; }
    assert s == u;
  }

  /** A string without NUL and its terminator. */
  ghost predicate StringAt(pages: Pages, va: nat, s: seq<U8>)
  {
    Holds(pages, va, s + [0]) && forall i :: 0 <= i < |s| ==> s[i] != 0
  }

  /** A string is read in one way only. */
  lemma StringUnique(pages: Pages, va: nat, s: seq<U8>, u: seq<U8>)
    requires StringAt(pages, va, s) && StringAt(pages, va, u)
    ensures s == u
  {
    forall j | 0 <= j < |s| ensures ByteAt(pages, va + j) == s[j] { assert (s + [0])[j] == s[j]; }
    forall j | 0 <= j < |u| ensures ByteAt(pages, va + j) == u[j] { assert (u + [0])[j] == u[j]; }
    assert ByteAt(pages, va + |s|) == (s + [0])[|s|] == 0;
    assert ByteAt(pages, va + |u|) == (u + [0])[|u|] == 0;
    if |s| < |u| { NonZero(pages, va, u, |s|); }
    if |u| < |s| { NonZero(pages, va, s, |u|); }
  }

  lemma NonZero(pages: Pages, va: nat, s: seq<U8>, i: nat)
    requires StringAt(pages, va, s) && i < |s|
    ensures ByteAt(pages, va + i) == s[i] != 0
  {
    assert (s + [0])[i] == s[i];
  }

  lemma HoldsCat(pages: Pages, va: nat, a: seq<U8>, b: seq<U8>)
    ensures Holds(pages, va, a + b) <==> Holds(pages, va, a) && Holds(pages, va + |a|, b)
  {
    if Holds(pages, va, a + b) {
      forall i | 0 <= i < |a| ensures ByteAt(pages, va + i) == a[i] { assert (a + b)[i] == a[i]; }
      forall i | 0 <= i < |b| ensures ByteAt(pages, va + |a| + i) == b[i] { assert (a + b)[|a| + i] == b[i]; }
    }
    if Holds(pages, va, a) && Holds(pages, va + |a|, b) {
      forall i | 0 <= i < |a + b| ensures ByteAt(pages, va + i) == (a + b)[i] {
        if i >= |a| { assert ByteAt(pages, va + |a| + (i - |a|)) == b[i - |a|]; }
      }
    }
  }

  // -------------------------------------------------------------------- space

  /** Every page is mapped for writing or for execution, never for both. */
  ghost predicate WriteXorExecute(perms: map<nat, Perm>)
  {
    forall p :: p in perms ==> !(perms[p].write && perms[p].exec)
  }

  /** A byte changes exactly where `s` is written to a mapped page. */
  ghost predicate Written(pages: Pages, pages': Pages, va: nat, s: seq<U8>)
  {
    && pages'.Keys == pages.Keys
    && forall x: nat :: ByteAt(pages', x) == if va <= x < va + |s| && ByteAt(pages, x) >= 0 then s[x - va]
         else ByteAt(pages, x)
  }

  lemma PutByte(pages: Pages, pages': Pages, va: nat, s: seq<U8>, b: U8)
    requires Written(pages, pages', va, s)
    ensures var x := va + |s|;
            var p2 := if x / PAGE in pages' then pages'[x / PAGE := pages'[x / PAGE][x % PAGE := b]] else pages';
            Written(pages, p2, va, s + [b])
  {
    var x := va + |s|;
    var p2 := if x / PAGE in pages' then pages'[x / PAGE := pages'[x / PAGE][x % PAGE := b]] else pages';
    assert x / PAGE in pages' <==> x / PAGE in pages'.Keys;
    assert p2.Keys == pages'.Keys;
    forall y: nat
      ensures ByteAt(p2, y) == if va <= y < va + |s| + 1 && ByteAt(pages, y) >= 0 then (s + [b])[y - va]
                else ByteAt(pages, y)
    {
      if y != x { Elsewhere(pages', x, b, y); }
      assert ByteAt(pages', y) == if va <= y < va + |s| && ByteAt(pages, y) >= 0 then s[y - va] else ByteAt(pages, y);
      assert ByteAt(pages, y) >= 0 <==> y / PAGE in pages.Keys;
    }
  }

  lemma Elsewhere(pages: Pages, x: nat, b: U8, y: nat)
    requires y != x
    ensures x / PAGE in pages ==> ByteAt(pages[x / PAGE := pages[x / PAGE][x % PAGE := b]], y) == ByteAt(pages, y)
  {
    if x / PAGE == y / PAGE { assert x == x / PAGE * PAGE + x % PAGE && y == y / PAGE * PAGE + y % PAGE; }
  }

  class Space {
    var pages: Pages
    var perms: map<nat, Perm>
    var supply: nat

    ghost predicate Valid()
      reads this
    {
      pages.Keys == perms.Keys && WriteXorExecute(perms)
    }

    /** An address space with nothing in its lower half; `frames` more pages can be
        allocated and mapped. */
    constructor (frames: nat)
      ensures Valid() && pages == map[] && perms == map[] && supply == frames
    {
      pages, perms, supply := map[], map[], frames;
    }

    /** pmm_alloc_page, vmm_map_page and memset: fails without a frame and on a page
        already mapped. */
    method MapZeroed(page: nat, perm: Perm) returns (ok: bool)
      requires Valid() && !(perm.write && perm.exec)
      modifies this
      ensures Valid()
      ensures ok <==> old(supply) > 0 && page !in old(pages)
      ensures ok ==>
                pages == old(pages)[page := ZeroPage()] && perms == old(perms)[page := perm]
                    && supply == old(supply) - 1
      ensures !ok ==> pages == old(pages) && perms == old(perms) && supply == old(supply)
    {
      if supply == 0 { return false; }
      if page in pages { return false; }
      supply := supply - 1;
      pages := pages[page := ZeroPage()];
      perms := perms[page := perm];
      return true;
    }

    /** write_user_stack_bytes: bytes for unmapped pages are dropped. */
    method WriteBytes(va: nat, data: seq<U8>)
      requires Valid()
      modifies this`pages
      ensures Valid() && Written(old(pages), pages, va, data)
    {
      hide Written;
      NothingWritten(pages, va);
      assert data[..0] == [];
      for i := 0 to |data|
        invariant Written(old(pages), pages, va, data[..i]) && pages.Keys == old(pages.Keys)
      {
        PutByte(old(pages), pages, va, data[..i], data[i]);
        assert data[..i + 1] == data[..i] + [data[i]];
        var x := va + i;
        if x / PAGE in pages {
          pages := pages[x / PAGE := pages[x / PAGE][x % PAGE := data[i]]];
        }
        SameKeys(old(pages), pages, va, data[..i + 1]);
      }
      assert data[..|data|] == data;
    }
  }

  lemma NothingWritten(pages: Pages, va: nat)
    ensures Written(pages, pages, va, [])
  {
  }

  lemma SameKeys(pages: Pages, pages': Pages, va: nat, s: seq<U8>)
    requires Written(pages, pages', va, s)
    ensures pages'.Keys == pages.Keys
  {
  }
}
