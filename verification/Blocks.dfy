/** Lists of blocks in use and free blocks, which both the kernel heap and the user
    allocator keep, and the first-fit choice both make. */
module Blocks {

  /** 2^64, where machine words wrap. */
  const WORD: nat := 0x1_0000_0000_0000_0000

  /** A block: the address of its header, its size, its state. The kernel counts the
      payload in the size, the user library counts the header too. */
  datatype Block = Block(addr: nat, size: nat, used: bool)

  predicate Apart(bs: seq<Block>, i: nat)
    requires i + 1 < |bs|
  {
    bs[i].used || bs[i + 1].used
  }

  /** No two neighbours are both free. */
  ghost predicate Merged(bs: seq<Block>)
  {
    forall i: nat :: i + 1 < |bs| ==> Apart(bs, i)
  }

  predicate Fits(b: Block, n: nat)
  {
    !b.used && b.size >= n
  }

  ghost predicate FirstFit(bs: seq<Block>, n: nat, i: nat)
  {
    i < |bs| && Fits(bs[i], n) && forall j :: 0 <= j < i ==> !Fits(bs[j], n)
  }

  ghost predicate NoFit(bs: seq<Block>, n: nat)
  {
    forall j :: 0 <= j < |bs| ==> !Fits(bs[j], n)
  }

  lemma FitOrNot(bs: seq<Block>, n: nat, i: nat)
    ensures FirstFit(bs, n, i) ==> i < |bs| && Fits(bs[i], n) && !NoFit(bs, n)
  {
  }

  function FreedAt(bs: seq<Block>, i: nat): seq<Block>
    requires i < |bs|
  {
    bs[i := bs[i].(used := false)]
  }

  /** The blocks in use. */
  ghost function Live(bs: seq<Block>): (r: set<Block>)
  {
    set b | b in bs && b.used
  }

  /** The address of block `i`, or the null pointer. */
  function AddrAt(bs: seq<Block>, i: int): nat
  {
    if 0 <= i < |bs| then bs[i].addr else 0
  }

  /** A pointer that a caller holds, and how many bytes it asked for. */
  datatype Held = Held(ptr: nat, size: nat)

  /** No two of the regions overlap. */
  ghost predicate Disjoint(held: seq<Held>)
  {
    forall i, j :: 0 <= i < |held| && 0 <= j < |held| && i != j ==> Beside(held[i], held[j])
  }

  predicate Beside(x: Held, y: Held)
  {
    x.ptr + x.size <= y.ptr || y.ptr + y.size <= x.ptr
  }
}
