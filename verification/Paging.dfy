/** Four-level page tables as a value (Intel SDM volume 3A, sections 4.5 and 4.6):
    physical memory read as tables, the tree of tables below a PML4, and the
    translations it holds for the lower half of the address space. */
module Paging {

  const ENTRIES := 512
  const LOWER_HALF := 256

  /** A page-table entry: the bits the kernel reads and writes, and the frame. */
  datatype Pte = Pte(present: bool, writable: bool, user: bool, huge: bool, noExec: bool, frame: nat)

  const ABSENT := Pte(false, false, false, false, false, 0)

  type Table = t: seq<Pte> | |t| == 512 witness seq(512, _ => Pte(false, false, false, false, false, 0))

  function EmptyTable(): (t: Table)
    ensures forall i :: 0 <= i < 512 ==> t[i] == ABSENT
  {
    seq(512, _ => ABSENT)
  }

  /** Physical memory, frame by frame. */
  type Mem = seq<Table>

  /** Table indices from the PML4 down. */
  type Path = seq<nat>

  predicate IsPath(p: Path)
  {
    (forall i :: 0 <= i < |p| ==> p[i] < ENTRIES) && (p != [] ==> p[0] < LOWER_HALF)
  }

  function Up(p: Path): Path
    requires p != []
  {
    p[..|p| - 1]
  }

  function Last(p: Path): nat
    requires p != []
  {
    p[|p| - 1]
  }

  lemma UpPath(p: Path)
    requires IsPath(p) && p != []
    ensures IsPath(Up(p)) && Last(p) < ENTRIES && p == Up(p) + [Last(p)]
  {
  }

  /** The frame of the table that `p` leads to, or -1. */
  function At(m: Mem, root: nat, p: Path): int
    requires IsPath(p)
    decreases |p|
  {
    if p == [] then root
    else
      var t := At(m, root, Up(p));
      if t < 0 || t >= |m| || !m[t][Last(p)].present then -1 else m[t][Last(p)].frame
  }

  /** The leaf entry for a page. */
  function Leaf(m: Mem, root: nat, q: Path): Pte
    requires IsPath(q) && |q| == 4
  {
    var t := At(m, root, Up(q));
    if t < 0 || t >= |m| then ABSENT else m[t][Last(q)]
  }

  // ------------------------------------------------------------ the tree

  predicate TablePath(p: Path)
  {
    IsPath(p) && |p| <= 3
  }

  ghost predicate Bounded(m: Mem, root: nat)
  {
    forall p :: TablePath(p) ==> At(m, root, p) < |m|
  }

  /** No table hangs in two places. */
  ghost predicate OnePlace(m: Mem, root: nat)
  {
    forall p, q :: TablePath(p) && TablePath(q) && At(m, root, p) == At(m, root, q) && At(m, root, p) >= 0 ==> p == q
  }

  /** An entry of a table of tables: it maps no memory itself and forbids nothing. */
  predicate Plain(e: Pte)
  {
    !e.huge && !e.noExec
  }

  ghost predicate PlainLinks(m: Mem, root: nat)
  {
    forall p, i: nat :: TablePath(p) && Inner(p, i) && 0 <= At(m, root, p) < |m| ==> Plain(m[At(m, root, p)][i])
  }

  /** Entry `i` of table `p` leads to another table of the lower half. */
  predicate Inner(p: Path, i: nat)
  {
    |p| <= 2 && i < ENTRIES && (p == [] ==> i < LOWER_HALF)
  }

  ghost predicate Tree(m: Mem, root: nat)
  {
    Bounded(m, root) && OnePlace(m, root) && PlainLinks(m, root)
  }

  ghost predicate IsNode(m: Mem, root: nat, f: nat)
  {
    exists p :: TablePath(p) && At(m, root, p) == f
  }

  /** The table frames of the lower half, the PML4 among them. */
  ghost function Nodes(m: Mem, root: nat): (r: set<nat>)
  {
    set f: nat | f < |m| && IsNode(m, root, f)
  }

  lemma NodeAt(m: Mem, root: nat, p: Path)
    requires Bounded(m, root) && TablePath(p) && At(m, root, p) >= 0
    ensures At(m, root, p) in Nodes(m, root)
  {
    assert IsNode(m, root, At(m, root, p));
  }

  lemma RootIsNode(m: Mem, root: nat)
    requires Bounded(m, root)
    ensures root in Nodes(m, root) && root < |m|
  {
    assert TablePath([]) && At(m, root, []) == root;
    NodeAt(m, root, []);
  }

  lemma OneFrame(m: Mem, root: nat, p: Path, q: Path)
    requires OnePlace(m, root) && TablePath(p) && TablePath(q) && p != q && At(m, root, p) >= 0
    ensures At(m, root, q) != At(m, root, p)
  {
    hide At;
  }

  // --------------------------------------------------------- permissions

  /** Every entry on the way down `p` grants user and write access where asked. */
  ghost predicate Grants(m: Mem, root: nat, p: Path, user: bool, write: bool)
    requires IsPath(p)
    decreases |p|
  {
    p == [] ||
    (var t := At(m, root, Up(p));
     Grants(m, root, Up(p), user, write) && 0 <= t < |m|
     && (user ==> m[t][Last(p)].user) && (write ==> m[t][Last(p)].writable))
  }

  /** The way to a mapped page grants whatever the page itself grants. */
  ghost predicate Permits(m: Mem, root: nat)
  {
    forall q :: IsPath(q) && |q| == 4 && Leaf(m, root, q).present ==>
      Grants(m, root, Up(q), Leaf(m, root, q).user, Leaf(m, root, q).writable)
  }

  // -------------------------------------------------- changes to the memory

  function SetEntry(m: Mem, t: nat, i: nat, e: Pte): (m': Mem)
    requires t < |m| && i < ENTRIES
    ensures |m'| == |m| && m'[t] == m[t][i := e] && forall f :: 0 <= f < |m| && f != t ==> m'[f] == m[f]
  {
    m[t := m[t][i := e]]
  }

  /** Memory outside the tree may change at will. */
  lemma AtFrame(m: Mem, m': Mem, root: nat, p: Path)
    requires |m'| == |m| && Bounded(m, root) && TablePath(p)
    requires forall f :: f in Nodes(m, root) ==> m'[f] == m[f]
    ensures At(m', root, p) == At(m, root, p)
    decreases |p|
  {
    if p == [] {
    } else {
      UpPath(p);
      AtFrame(m, m', root, Up(p));
      if At(m, root, Up(p)) >= 0 { NodeAt(m, root, Up(p)); }
    }
  }

  lemma GrantsFrame(m: Mem, m': Mem, root: nat, p: Path, user: bool, write: bool)
    requires |m'| == |m| && Bounded(m, root) && TablePath(p)
    requires forall f :: f in Nodes(m, root) ==> m'[f] == m[f]
    ensures Grants(m', root, p, user, write) == Grants(m, root, p, user, write)
    decreases |p|
  {
    if p == [] {
    } else {
      UpPath(p);
      GrantsFrame(m, m', root, Up(p), user, write);
      AtFrame(m, m', root, Up(p));
      if At(m, root, Up(p)) >= 0 { NodeAt(m, root, Up(p)); }
    }
  }

  lemma LeafFrame(m: Mem, m': Mem, root: nat, q: Path)
    requires |m'| == |m| && Bounded(m, root) && IsPath(q) && |q| == 4
    requires forall f :: f in Nodes(m, root) ==> m'[f] == m[f]
    ensures Leaf(m', root, q) == Leaf(m, root, q)
  {
    UpPath(q);
    AtFrame(m, m', root, Up(q));
    if At(m, root, Up(q)) >= 0 { NodeAt(m, root, Up(q)); }
  }

  /** An address space whose tables are untouched keeps its tree, its
      permissions, its tables and its translations. */
  lemma SpaceFrame(m: Mem, m': Mem, root: nat)
    requires |m'| == |m| && Tree(m, root) && Permits(m, root)
    requires forall f :: f in Nodes(m, root) ==> m'[f] == m[f]
    ensures Tree(m', root) && Permits(m', root) && Nodes(m', root) == Nodes(m, root)
    ensures forall q :: IsPath(q) && |q| == 4 ==> Leaf(m', root, q) == Leaf(m, root, q)
  {
    hide At, Leaf, Grants;
    forall p | TablePath(p) ensures At(m', root, p) == At(m, root, p) { AtFrame(m, m', root, p); }
    forall q | IsPath(q) && |q| == 4 ensures Leaf(m', root, q) == Leaf(m, root, q) { LeafFrame(m, m', root, q); }
    forall q | IsPath(q) && |q| == 4 && Leaf(m', root, q).present
      ensures Grants(m', root, Up(q), Leaf(m', root, q).user, Leaf(m', root, q).writable)
    {
      UpPath(q);
      GrantsFrame(m, m', root, Up(q), Leaf(m, root, q).user, Leaf(m, root, q).writable);
    }
    forall p, i: nat | TablePath(p) && Inner(p, i) && 0 <= At(m', root, p) < |m'|
      ensures Plain(m'[At(m', root, p)][i])
    {
      NodeAt(m, root, p);
    }
    SameNodes(m, m', root);
  }

  lemma SameNodes(m: Mem, m': Mem, root: nat)
    requires |m'| == |m| && forall p :: TablePath(p) ==> At(m', root, p) == At(m, root, p)
    ensures Nodes(m', root) == Nodes(m, root)
  {
    hide At;
    forall f: nat ensures IsNode(m', root, f) <==> IsNode(m, root, f) {
      if IsNode(m, root, f) {
        var p :| TablePath(p) && At(m, root, p) == f;
        assert At(m', root, p) == f;
      }
      if IsNode(m', root, f) {
        var p :| TablePath(p) && At(m', root, p) == f;
        assert At(m, root, p) == f;
      }
    }
  }

  // ------------------------------------------------------------- widening

  /** `e` with more rights, for the same table. */
  ghost predicate Wider(e: Pte, e': Pte)
  {
    && e'.present == e.present && e'.frame == e.frame && e'.huge == e.huge && e'.noExec == e.noExec
    && (e.user ==> e'.user) && (e.writable ==> e'.writable)
  }

  lemma WidenAt(m: Mem, root: nat, t: nat, i: nat, e: Pte, p: Path)
    requires t < |m| && i < ENTRIES && Wider(m[t][i], e) && IsPath(p)
    ensures At(SetEntry(m, t, i, e), root, p) == At(m, root, p)
    decreases |p|
  {
    if p == [] {
    } else {
      UpPath(p);
      WidenAt(m, root, t, i, e, Up(p));
    }
  }

  lemma WidenGrants(m: Mem, root: nat, t: nat, i: nat, e: Pte, p: Path, user: bool, write: bool)
    requires t < |m| && i < ENTRIES && Wider(m[t][i], e) && IsPath(p) && Grants(m, root, p, user, write)
    ensures Grants(SetEntry(m, t, i, e), root, p, user, write)
    decreases |p|
  {
    if p == [] {
    } else {
      UpPath(p);
      WidenAt(m, root, t, i, e, Up(p));
      WidenGrants(m, root, t, i, e, Up(p), user, write);
    }
  }

  /** Widening the entry that leads from table `p` to the next one changes no
      translation and takes no right away. */
  lemma Widen(m: Mem, root: nat, p: Path, i: nat, e: Pte)
    requires Tree(m, root) && Permits(m, root) && TablePath(p) && |p| <= 2 && IsPath(p + [i]) && i < ENTRIES
    requires At(m, root, p) >= 0 && Wider(m[At(m, root, p)][i], e)
    ensures var m' := SetEntry(m, At(m, root, p), i, e);
            && Tree(m', root) && Permits(m', root) && Nodes(m', root) == Nodes(m, root)
            && (forall q :: TablePath(q) ==> At(m', root, q) == At(m, root, q))
            && (forall q :: IsPath(q) && |q| == 4 ==> Leaf(m', root, q) == Leaf(m, root, q))
            && (forall q, u, w :: TablePath(q) && Grants(m, root, q, u, w) ==> Grants(m', root, q, u, w))
  {
    var t := At(m, root, p);
    var m' := SetEntry(m, t, i, e);
    forall q | TablePath(q) ensures At(m', root, q) == At(m, root, q) { WidenAt(m, root, t, i, e, q); }
    forall q, u, w | TablePath(q) && Grants(m, root, q, u, w)
      ensures Grants(m', root, q, u, w)
    {
      WidenGrants(m, root, t, i, e, q, u, w);
    }
    hide At, Grants, Leaf, Permits;
    forall q | IsPath(q) && |q| == 4 ensures Leaf(m', root, q) == Leaf(m, root, q) { WidenLeaf(m, root, p, i, e, q); }
    SameNodes(m, m', root);
    WidenHuge(m, root, t, i, e);
    KeptPermits(m, m', root);
  }

  lemma WidenLeaf(m: Mem, root: nat, p: Path, i: nat, e: Pte, q: Path)
    requires Tree(m, root) && TablePath(p) && |p| <= 2 && i < ENTRIES && 0 <= At(m, root, p) < |m|
    requires Wider(m[At(m, root, p)][i], e) && IsPath(q) && |q| == 4
    ensures Leaf(SetEntry(m, At(m, root, p), i, e), root, q) == Leaf(m, root, q)
  {
    UpPath(q);
    WidenAt(m, root, At(m, root, p), i, e, Up(q));
    hide At;
    OneFrame(m, root, p, Up(q));
  }

  lemma WidenHuge(m: Mem, root: nat, t: nat, i: nat, e: Pte)
    requires t < |m| && i < ENTRIES && Wider(m[t][i], e) && PlainLinks(m, root)
    requires forall q :: TablePath(q) ==> At(SetEntry(m, t, i, e), root, q) == At(m, root, q)
    ensures PlainLinks(SetEntry(m, t, i, e), root)
  {
    hide At;
    var m' := SetEntry(m, t, i, e);
    forall q, j: nat | TablePath(q) && Inner(q, j) && 0 <= At(m', root, q) < |m'|
      ensures Plain(m'[At(m', root, q)][j])
    {
    }
  }

  // ------------------------------------------------------------ attaching

  /** A new, empty table `f` hangs from entry `i` of table `p`. */
  function Attached(m: Mem, t: nat, i: nat, f: nat, e: Pte): (m': Mem)
    requires t < |m| && f < |m| && i < ENTRIES
    ensures |m'| == |m|
  {
    SetEntry(m[f := EmptyTable()], t, i, e)
  }

  ghost predicate CanAttach(m: Mem, root: nat, p: Path, i: nat, f: nat, e: Pte)
  {
    && Tree(m, root) && TablePath(p) && Inner(p, i) && At(m, root, p) >= 0
    && !m[At(m, root, p)][i].present && f < |m| && f !in Nodes(m, root)
    && e.present && Plain(e) && e.frame == f
  }

  lemma AttachAt(m: Mem, root: nat, p: Path, i: nat, f: nat, e: Pte, q: Path)
    requires CanAttach(m, root, p, i, f, e) && TablePath(q)
    ensures At(Attached(m, At(m, root, p), i, f, e), root, q) == if q == p + [i] then f else At(m, root, q)
    decreases |q|
  {
    hide OnePlace, PlainLinks, Bounded, Nodes;
    var t := At(m, root, p);
    NodeAt(m, root, p);
    NodeBound(m, root, p);
    if q == [] {
    } else {
      UpPath(q);
      var u := Up(q);
      AttachAt(m, root, p, i, f, e, u);
      AttachAbsent(m, root, p, i);
      if u != p + [i] && At(m, root, u) >= 0 {
        NodeAt(m, root, u);
        NodeBound(m, root, u);
        if u != p { OneFrame(m, root, p, u); }
      }
    }
  }

  lemma NodeBound(m: Mem, root: nat, p: Path)
    requires Bounded(m, root) && TablePath(p)
    ensures At(m, root, p) < |m|
  {
  }

  lemma AttachGrants(m: Mem, root: nat, p: Path, i: nat, f: nat, e: Pte, q: Path, user: bool, write: bool)
    requires CanAttach(m, root, p, i, f, e) && TablePath(q) && At(m, root, q) >= 0 && Grants(m, root, q, user, write)
    ensures Grants(Attached(m, At(m, root, p), i, f, e), root, q, user, write)
    decreases |q|
  {
    hide OnePlace, PlainLinks, Nodes;
    var t := At(m, root, p);
    NodeAt(m, root, p);
    if q == [] {
    } else {
      UpPath(q);
      var u := Up(q);
      AttachAt(m, root, p, i, f, e, u);
      AttachGrants(m, root, p, i, f, e, u, user, write);
      NodeAt(m, root, u);
      if u != p { OneFrame(m, root, p, u); }
    }
  }

  /** Attaching an empty table changes no translation and adds one node. */
  lemma Attach(m: Mem, root: nat, p: Path, i: nat, f: nat, e: Pte)
    requires CanAttach(m, root, p, i, f, e) && Permits(m, root)
    ensures var m' := Attached(m, At(m, root, p), i, f, e);
            && Tree(m', root) && Permits(m', root) && Nodes(m', root) == Nodes(m, root) + {f}
            && TablePath(p + [i]) && At(m', root, p + [i]) == f && At(m', root, p) == At(m, root, p)
            && (forall q :: IsPath(q) && |q| == 4 ==> Leaf(m', root, q) == Leaf(m, root, q))
            && (forall q, u, w :: TablePath(q) && At(m, root, q) >= 0 && Grants(m, root, q, u, w) ==>
                 Grants(m', root, q, u, w))
  {
    var t := At(m, root, p);
    var m' := Attached(m, t, i, f, e);
    NodeAt(m, root, p);
    assert TablePath(p + [i]);
    forall q | TablePath(q)
      ensures At(m', root, q) == if q == p + [i] then f else At(m, root, q)
    {
      AttachAt(m, root, p, i, f, e, q);
    }
    forall q, u, w | TablePath(q) && At(m, root, q) >= 0 && Grants(m, root, q, u, w) ensures Grants(m', root, q, u, w) {
      AttachGrants(m, root, p, i, f, e, q, u, w);
    }
    AttachAbsent(m, root, p, i);
    hide At, Grants;
    forall q | IsPath(q) && |q| == 4
      ensures Leaf(m', root, q) == Leaf(m, root, q)
    {
      AttachLeaf(m, root, p, i, f, e, q);
    }
    AttachTree(m, root, p, i, f, e);
    KeptPermits(m, m', root);
  }

  lemma AttachAbsent(m: Mem, root: nat, p: Path, i: nat)
    requires TablePath(p) && Inner(p, i) && 0 <= At(m, root, p) < |m| && !m[At(m, root, p)][i].present
    ensures IsPath(p + [i]) && At(m, root, p + [i]) == -1
  {
    assert Up(p + [i]) == p && Last(p + [i]) == i;
  }

  lemma AttachLeaf(m: Mem, root: nat, p: Path, i: nat, f: nat, e: Pte, q: Path)
    requires CanAttach(m, root, p, i, f, e) && IsPath(q) && |q| == 4
    ensures Leaf(Attached(m, At(m, root, p), i, f, e), root, q) == Leaf(m, root, q)
  {
    UpPath(q);
    AttachAt(m, root, p, i, f, e, Up(q));
    AttachAbsent(m, root, p, i);
    NodeAt(m, root, p);
    hide At;
    if Up(q) != p + [i] && At(m, root, Up(q)) >= 0 {
      NodeAt(m, root, Up(q));
    }
  }

  lemma AttachTree(m: Mem, root: nat, p: Path, i: nat, f: nat, e: Pte)
    requires CanAttach(m, root, p, i, f, e) && TablePath(p + [i]) && At(m, root, p + [i]) == -1
    requires forall q :: TablePath(q) ==>
               At(Attached(m, At(m, root, p), i, f, e), root, q) == if q == p + [i] then f else At(m, root, q)
    ensures var m' := Attached(m, At(m, root, p), i, f, e); Tree(m', root) && Nodes(m', root) == Nodes(m, root) + {f}
  {
    hide At;
    var t := At(m, root, p);
    var m' := Attached(m, t, i, f, e);
    NodeAt(m, root, p);
    forall q | TablePath(q) && At(m, root, q) >= 0 ensures At(m, root, q) != f { NodeAt(m, root, q); }
    assert OnePlace(m', root);
    assert PlainLinks(m', root);
    forall g: nat | g < |m| ensures g in Nodes(m', root) <==> g in Nodes(m, root) + {f} {
      if IsNode(m, root, g) {
        var q :| TablePath(q) && At(m, root, q) == g;
        assert At(m', root, q) == g;
      }
      if IsNode(m', root, g) {
        var q :| TablePath(q) && At(m', root, q) == g;
        assert q != p + [i] ==> At(m, root, q) == g;
      }
      assert At(m', root, p + [i]) == f;
    }
  }

  lemma KeptPermits(m: Mem, m': Mem, root: nat)
    requires Permits(m, root)
    requires forall q :: IsPath(q) && |q| == 4 ==> Leaf(m', root, q) == Leaf(m, root, q)
    requires forall q, u, w :: TablePath(q) && At(m, root, q) >= 0 && Grants(m, root, q, u, w) ==>
               Grants(m', root, q, u, w)
    ensures Permits(m', root)
  {
    hide At, Grants;
    forall q | IsPath(q) && |q| == 4 && Leaf(m', root, q).present
      ensures Grants(m', root, Up(q), Leaf(m', root, q).user, Leaf(m', root, q).writable)
    {
      UpPath(q);
      assert TablePath(Up(q)) && At(m, root, Up(q)) >= 0;
    }
  }

  // --------------------------------------------------------------- leaves

  lemma LeafSetAt(m: Mem, root: nat, p: Path, i: nat, e: Pte, q: Path)
    requires Tree(m, root) && TablePath(p) && |p| == 3 && At(m, root, p) >= 0 && i < ENTRIES && TablePath(q)
    ensures At(SetEntry(m, At(m, root, p), i, e), root, q) == At(m, root, q)
    decreases |q|
  {
    NodeAt(m, root, p);
    if q == [] {
    } else {
      UpPath(q);
      LeafSetAt(m, root, p, i, e, Up(q));
      OneFrame(m, root, p, Up(q));
    }
  }

  lemma LeafSetGrants(m: Mem, root: nat, p: Path, i: nat, e: Pte, q: Path, user: bool, write: bool)
    requires Tree(m, root) && TablePath(p) && |p| == 3 && At(m, root, p) >= 0 && i < ENTRIES && TablePath(q)
    ensures Grants(SetEntry(m, At(m, root, p), i, e), root, q, user, write) == Grants(m, root, q, user, write)
    decreases |q|
  {
    NodeAt(m, root, p);
    if q == [] {
    } else {
      UpPath(q);
      LeafSetAt(m, root, p, i, e, Up(q));
      LeafSetGrants(m, root, p, i, e, Up(q), user, write);
      OneFrame(m, root, p, Up(q));
    }
  }

  /** Writing the leaf entry of a page changes that page's translation only. */
  lemma LeafSet(m: Mem, root: nat, q: Path, e: Pte)
    requires Tree(m, root) && Permits(m, root) && IsPath(q) && |q| == 4 && At(m, root, Up(q)) >= 0
    requires e.present ==> Grants(m, root, Up(q), e.user, e.writable)
    ensures var m' := SetEntry(m, At(m, root, Up(q)), Last(q), e);
            && Tree(m', root) && Permits(m', root) && Nodes(m', root) == Nodes(m, root)
            && (forall x :: IsPath(x) && |x| == 4 ==> Leaf(m', root, x) == if x == q then e else Leaf(m, root, x))
  {
    UpPath(q);
    var p, i := Up(q), Last(q);
    var t := At(m, root, p);
    NodeAt(m, root, p);
    var m' := SetEntry(m, t, i, e);
    forall x | TablePath(x) ensures At(m', root, x) == At(m, root, x) { LeafSetAt(m, root, p, i, e, x); }
    forall x, u, w | TablePath(x)
      ensures Grants(m', root, x, u, w) == Grants(m, root, x, u, w)
    {
      LeafSetGrants(m, root, p, i, e, x, u, w);
    }
    hide At, Grants;
    forall x | IsPath(x) && |x| == 4
      ensures Leaf(m', root, x) == if x == q then e else Leaf(m, root, x)
    {
      LeafSetLeaf(m, root, q, e, x);
    }
    SameNodes(m, m', root);
    LeafSetHuge(m, root, p, i, e);
    hide PlainLinks, OnePlace, Nodes;
    forall x | IsPath(x) && |x| == 4 && Leaf(m', root, x).present
      ensures Grants(m', root, Up(x), Leaf(m', root, x).user, Leaf(m', root, x).writable)
    {
      UpPath(x);
    }
  }

  lemma LeafSetLeaf(m: Mem, root: nat, q: Path, e: Pte, x: Path)
    requires Tree(m, root) && IsPath(q) && |q| == 4 && 0 <= At(m, root, Up(q)) < |m| && IsPath(x) && |x| == 4
    ensures Leaf(SetEntry(m, At(m, root, Up(q)), Last(q), e), root, x) == if x == q then e else Leaf(m, root, x)
  {
    UpPath(q);
    UpPath(x);
    LeafSetAt(m, root, Up(q), Last(q), e, Up(x));
    hide At;
    if Up(x) != Up(q) { OneFrame(m, root, Up(q), Up(x)); }
  }

  lemma LeafSetHuge(m: Mem, root: nat, p: Path, i: nat, e: Pte)
    requires Tree(m, root) && TablePath(p) && |p| == 3 && 0 <= At(m, root, p) < |m| && i < ENTRIES
    requires forall x :: TablePath(x) ==> At(SetEntry(m, At(m, root, p), i, e), root, x) == At(m, root, x)
    ensures PlainLinks(SetEntry(m, At(m, root, p), i, e), root)
  {
    hide At;
    var m' := SetEntry(m, At(m, root, p), i, e);
    forall x, j: nat | TablePath(x) && Inner(x, j) && 0 <= At(m', root, x) < |m'|
      ensures Plain(m'[At(m', root, x)][j])
    {
      OneFrame(m, root, p, x);
    }
  }
}
