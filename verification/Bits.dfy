/** Bytes and their single bits, as the kernel's bitmaps use them: `x & (1 << k)`,
    `x |= 1 << k` and `x &= ~(1 << k)` read over the natural numbers. Also C strings
    and sets of numbers, which several modules need. */
module Bits {

  type U8 = x: int | 0 <= x < 256

  /** `x & (1 << k)` is nonzero. */
  predicate Bit(x: nat, k: nat)
  {
    if k == 0 then x % 2 == 1 else Bit(x / 2, k - 1)
  }

  /** `x | (1 << k)` when `on`, `x & ~(1 << k)` otherwise. */
  function WithBit(x: nat, k: nat, on: bool): (r: nat)
  {
    if k == 0 then x / 2 * 2 + (if on then 1 else 0)
    else WithBit(x / 2, k - 1, on) * 2 + x % 2
  }

  lemma {:induction false} WithBitSpec(x: nat, k: nat, on: bool, j: nat)
    ensures Bit(WithBit(x, k, on), j) == (if j == k then on else Bit(x, j))
  {
    var r := WithBit(x, k, on);
    if k == 0 {
      assert r / 2 == x / 2;
    } else {
      assert r / 2 == WithBit(x / 2, k - 1, on) && r % 2 == x % 2;
      if j != 0 { WithBitSpec(x / 2, k - 1, on, j - 1); }
    }
  }

  lemma WithBitBelow(x: nat, k: nat, on: bool, n: nat)
    requires k < n && x < Pow2(n)
    ensures WithBit(x, k, on) < Pow2(n)
  {
    if k == 0 {
    } else {
      WithBitBelow(x / 2, k - 1, on, n - 1);
    }
  }

  function Pow2(n: nat): (r: nat)
    ensures r > 0
  {
    if n == 0 then 1 else 2 * Pow2(n - 1)
  }

  /** Bit `k` is the binary digit of weight 2^k. */
  lemma {:induction false} BitIsDigit(x: nat, k: nat)
    ensures Bit(x, k) <==> x / Pow2(k) % 2 == 1
  {
    if k == 0 {
    } else {
      BitIsDigit(x / 2, k - 1);
      Halved(x, Pow2(k - 1));
    }
  }

  lemma Halved(x: nat, p: nat)
    requires p > 0
    ensures x / 2 / p == x / (2 * p)
  {
    var q, m := x / (2 * p), x % (2 * p);
    assert x == 2 * (q * p) + m;
    assert x / 2 == q * p + m / 2 && m / 2 < p;
    SameQuotient(p, q, m / 2, x / 2 / p, x / 2 % p);
  }

  lemma SameQuotient(p: nat, q: int, r: nat, q': int, r': nat)
    requires q * p + r == q' * p + r' && r < p && r' < p
    ensures q == q'
  {
    if q > q' {
      AtLeast(q, q', p);
    } else if q < q' {
      AtLeast(q', q, p);
    }
  }

  lemma AtLeast(q: int, q': int, p: nat)
    requires q >= q' + 1
    ensures q * p >= q' * p + p
  {
    var a := q - q' - 1;
    assert q * p == (q' + 1 + a) * p == q' * p + p + a * p;
  }

  /** Setting or clearing one of the eight bits of a byte gives a byte. */
  function SetBit(x: U8, k: nat, on: bool): (r: U8)
    requires k < 8
    ensures forall j: nat :: Bit(r, j) == (if j == k then on else Bit(x, j))
  {
    assert Pow2(8) == 256;
    WithBitBelow(x, k, on, 8);
    assert forall j: nat :: Bit(WithBit(x, k, on), j) == (if j == k then on else Bit(x, j)) by {
      forall j: nat { WithBitSpec(x, k, on, j); }
    }
    WithBit(x, k, on)
  }

  /** The low `n` bits of `x` are all set. */
  predicate AllSet(x: nat, n: nat)
  {
    forall k: nat :: k < n ==> Bit(x, k)
  }

  /** A byte is 0xFF exactly when its eight bits are all set. */
  lemma FullByte(x: U8)
    ensures x == 255 <==> AllSet(x, 8)
  {
    assert Pow2(8) == 256;
    if AllSet(x, 8) {
      AllOnes(x, 8);
    }
    if x == 255 {
      forall k: nat | k < 8 ensures Bit(x, k) { OnesBit(8, k); }
    }
  }

  lemma AllOnes(x: nat, n: nat)
    requires x < Pow2(n) && AllSet(x, n)
    ensures x == Pow2(n) - 1
  {
    if n == 0 {
    } else {
      assert Bit(x, 0);
      forall k: nat | k < n - 1 ensures Bit(x / 2, k) { assert Bit(x, k + 1); }
      AllOnes(x / 2, n - 1);
    }
  }

  lemma OnesBit(n: nat, k: nat)
    requires k < n
    ensures Bit(Pow2(n) - 1, k)
  {
    if k == 0 {
    } else {
      assert (Pow2(n) - 1) / 2 == Pow2(n - 1) - 1;
      OnesBit(n - 1, k - 1);
    }
  }

  /** Byte 0xFF has every bit set; byte 0 has none. */
  lemma {:induction false} ZeroByte(k: nat)
    ensures !Bit(0, k)
  {
    if k == 0 {
    } else {
      ZeroByte(k - 1);
    }
  }

  /** What a C string may hold. */
  predicate NoNul(s: seq<U8>)
  {
    forall i :: 0 <= i < |s| ==> s[i] != 0
  }

  /** The numbers below `n`. */
  ghost function Below(n: nat): (r: set<nat>)
  {
    set i: nat | i < n && Less(i, n)
  }

  predicate Less(i: nat, n: nat)
  {
    i < n
  }

  lemma {:induction false} BelowSize(n: nat)
    ensures |Below(n)| == n
  {
    if n == 0 {
      assert Below(0) == {};
    } else {
      BelowSize(n - 1);
      assert Below(n) == Below(n - 1) + {n - 1};
    }
  }

  lemma BetweenSize(lo: nat, hi: nat)
    requires lo <= hi
    ensures |Below(hi) - Below(lo)| == hi - lo
  {
    BelowSize(lo);
    BelowSize(hi);
    assert Below(hi) == Below(lo) + (Below(hi) - Below(lo));
  }

  ghost function SetOf(s: seq<nat>): set<nat>
  {
    set b | b in s
  }
}
