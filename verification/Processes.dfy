/** The child lists of kernel/process/process.c: process records linked through
    children_head and next_sibling, read as one sequence of children per process. */
module Processes {

  /** The address of a process record; 0 is the null pointer. */
  type Addr = nat

  datatype Proc = Proc(pid: nat, zombie: bool, parent: Addr, childrenHead: Addr, nextSibling: Addr, status: int,
                       waiter: nat)

  type Table = map<Addr, Proc>
  type Kids = map<Addr, seq<Addr>>

  function NextOf(s: seq<Addr>, i: int): Addr
  {
    if 0 <= i + 1 < |s| then s[i + 1] else 0
  }

  ghost predicate Distinct(s: seq<Addr>)
  {
    forall i, j :: 0 <= i < j < |s| ==> s[i] != s[j]
  }

  ghost predicate LinkAt(t: Table, s: seq<Addr>, p: Addr, i: int)
    requires 0 <= i < |s|
  {
    s[i] in t && t[s[i]].parent == p && t[s[i]].nextSibling == NextOf(s, i)
  }

  /** The list of `p` in memory is `s`. */
  ghost predicate Links(t: Table, s: seq<Addr>, p: Addr)
  {
    p in t && t[p].childrenHead == NextOf(s, -1) && Distinct(s) && forall i :: 0 <= i < |s| ==> LinkAt(t, s, p, i)
  }

  /** Every process but the kernel's is in the list of its parent. */
  ghost predicate Kept(t: Table, kids: Kids, kernel: Addr, c: Addr)
    requires c in t
  {
    c != kernel ==> t[c].parent in kids && c in kids[t[c].parent]
  }

  ghost predicate Family(t: Table, kids: Kids, kernel: Addr)
  {
    && kids.Keys == t.Keys && kernel in t && 0 !in t && t[kernel].parent == 0
    && (forall p :: p in kids ==> Links(t, kids[p], p))
    && (forall c :: c in t ==> Kept(t, kids, kernel, c))
  }

  lemma Child(t: Table, kids: Kids, kernel: Addr, p: Addr, i: int)
    requires Family(t, kids, kernel) && p in kids && 0 <= i < |kids[p]|
    ensures LinkAt(t, kids[p], p, i) && p in t && kids[p][i] != kernel && kids[p][i] != 0 && Links(t, kids[p], p)
  {
    assert Links(t, kids[p], p) && LinkAt(t, kids[p], p, i);
  }

  lemma Parent(t: Table, kids: Kids, kernel: Addr, c: Addr)
    requires Family(t, kids, kernel) && c in t && c != kernel
    ensures t[c].parent in t && t[c].parent in kids && c in kids[t[c].parent] && t[c].parent != 0
  {
    assert Kept(t, kids, kernel, c);
    assert t[c].parent in kids.Keys;
  }

  /** Changes that leave links alone leave the family alone. */
  ghost predicate SameLinks(t: Table, t': Table)
  {
    t'.Keys == t.Keys && forall p :: p in t ==> SameLink(t[p], t'[p])
  }

  ghost predicate SameLink(a: Proc, b: Proc)
  {
    a.parent == b.parent && a.childrenHead == b.childrenHead && a.nextSibling == b.nextSibling
  }

  lemma SameFamily(t: Table, t': Table, kids: Kids, kernel: Addr)
    requires Family(t, kids, kernel) && SameLinks(t, t')
    ensures Family(t', kids, kernel)
  {
    assert SameLink(t[kernel], t'[kernel]);
    forall p | p in kids ensures Links(t', kids[p], p) {
      assert Links(t, kids[p], p) && p in t.Keys && SameLink(t[p], t'[p]);
      forall i | 0 <= i < |kids[p]| ensures LinkAt(t', kids[p], p, i) {
        assert LinkAt(t, kids[p], p, i) && SameLink(t[kids[p][i]], t'[kids[p][i]]);
      }
    }
    forall c | c in t'
      ensures Kept(t', kids, kernel, c)
    {
      assert c in t.Keys && Kept(t, kids, kernel, c) && SameLink(t[c], t'[c]);
    }
  }

  // ------------------------------------------------------------------ birth

  function Born(t: Table, n: Addr, parent: Addr, pid: nat): Table
    requires parent in t
  {
    t[n := Proc(pid, false, parent, 0, t[parent].childrenHead, 0, 0)][parent := t[parent].(childrenHead := n)]
  }

  /** The links through `x` as a child are the same in both tables. */
  ghost predicate AsChild(t: Table, t': Table, x: Addr)
  {
    x in t && x in t' && t'[x].parent == t[x].parent && t'[x].nextSibling == t[x].nextSibling
  }

  lemma LinksFrame(t: Table, t': Table, s: seq<Addr>, p: Addr)
    requires Links(t, s, p) && p in t' && t'[p].childrenHead == t[p].childrenHead
    requires forall i :: 0 <= i < |s| ==> AsChild(t, t', s[i])
    ensures Links(t', s, p)
  {
    forall i | 0 <= i < |s| ensures LinkAt(t', s, p, i) { assert LinkAt(t, s, p, i) && AsChild(t, t', s[i]); }
  }

  /** A process is in no list but its parent's. */
  lemma NotMine(t: Table, s: seq<Addr>, p: Addr, c: Addr)
    requires Links(t, s, p) && (c !in t || t[c].parent != p)
    ensures c !in s
  {
    forall i | 0 <= i < |s| ensures s[i] != c { assert LinkAt(t, s, p, i); }
  }

  lemma MineIn(t: Table, s: seq<Addr>, p: Addr)
    requires Links(t, s, p)
    ensures forall i :: 0 <= i < |s| ==> s[i] in t && t[s[i]].parent == p
  {
    forall i | 0 <= i < |s| ensures s[i] in t && t[s[i]].parent == p { assert LinkAt(t, s, p, i); }
  }

  lemma KidsOf(t: Table, kids: Kids, kernel: Addr, p: Addr)
    requires Family(t, kids, kernel) && (p in t || p in kids)
    ensures p in t && p in kids && Links(t, kids[p], p)
  {
    assert p in t.Keys;
  }

  /** A new head of the list. */
  lemma PushLinks(t: Table, t': Table, s: seq<Addr>, p: Addr, c: Addr)
    requires Links(t, s, p) && c !in s && p in t' && t'[p].childrenHead == c
    requires c in t' && t'[c].parent == p && t'[c].nextSibling == t[p].childrenHead
    requires forall i :: 0 <= i < |s| ==> AsChild(t, t', s[i])
    ensures Links(t', [c] + s, p)
  {
    var s' := [c] + s;
    forall i | 0 <= i < |s'| ensures LinkAt(t', s', p, i) {
      if i > 0 { assert LinkAt(t, s, p, i - 1) && AsChild(t, t', s[i - 1]); }
    }
  }

  /** process_create puts the new process at the front of its parent's list. */
  lemma BornFamily(t: Table, kids: Kids, kernel: Addr, n: Addr, parent: Addr, pid: nat)
    requires Family(t, kids, kernel) && n !in t && n != 0 && parent in t
    ensures parent in kids && Family(Born(t, n, parent, pid), kids[n := []][parent := [n] + kids[parent]], kernel)
  {
    hide Links, Kept;
    KidsOf(t, kids, kernel, parent);
    assert n !in kids.Keys;
    var t' := Born(t, n, parent, pid);
    var kids' := kids[n := []][parent := [n] + kids[parent]];
    forall p | p in kids' ensures Links(t', kids'[p], p) { BornLinks(t, kids, kernel, n, parent, pid, p); }
    forall c | c in t' ensures Kept(t', kids', kernel, c) { BornKept(t, kids, kernel, n, parent, pid, c); }
    assert t'.Keys == t.Keys + {n} && kids'.Keys == kids.Keys + {n};
  }

  lemma BornLinks(t: Table, kids: Kids, kernel: Addr, n: Addr, parent: Addr, pid: nat, p: Addr)
    requires Family(t, kids, kernel) && n !in t && n !in kids && n != 0 && parent in t && parent in kids
    requires (p in kids || p == n)
    ensures Links(Born(t, n, parent, pid), kids[n := []][parent := [n] + kids[parent]][p], p)
  {
    hide Links;
    var t' := Born(t, n, parent, pid);
    if p == n {
      NoLinks(t', n);
    } else {
      KidsOf(t, kids, kernel, p);
      hide Family;
      MineIn(t, kids[p], p);
      NotMine(t, kids[p], p, n);
      if p == parent { PushLinks(t, t', kids[p], p, n); } else { LinksFrame(t, t', kids[p], p); }
    }
  }

  lemma BornKept(t: Table, kids: Kids, kernel: Addr, n: Addr, parent: Addr, pid: nat, c: Addr)
    requires Family(t, kids, kernel) && n !in t && n !in kids && n != 0 && parent in t && parent in kids
    requires (c in t || c == n)
    ensures Kept(Born(t, n, parent, pid), kids[n := []][parent := [n] + kids[parent]], kernel, c)
  {
    if c == n {
      assert ([n] + kids[parent])[0] == n;
    } else if c != kernel {
      Parent(t, kids, kernel, c);
      hide Family;
    }
  }

  lemma NoLinks(t: Table, p: Addr)
    requires p in t && t[p].childrenHead == 0
    ensures Links(t, [], p)
  {
  }

  // --------------------------------------------------------------- reparenting

  /** The first child `c` of `p` goes to the front of the list of `k`. */
  function Moved(t: Table, p: Addr, k: Addr, c: Addr): Table
    requires p in t && k in t && c in t
  {
    var t1 := t[p := t[p].(childrenHead := t[c].nextSibling)];
    var t2 := t1[c := t1[c].(parent := k, nextSibling := t1[k].childrenHead)];
    t2[k := t2[k].(childrenHead := c)]
  }

  /** What a move does to each record. */
  lemma MovedAt(t: Table, p: Addr, k: Addr, c: Addr)
    requires p in t && k in t && c in t && p != k && c != k
    ensures var t' := Moved(t, p, k, c);
            && t'.Keys == t.Keys && t'[k].childrenHead == c && t'[c].parent == k
            && t'[c].nextSibling == t[k].childrenHead
            && (c != p ==> t'[p].childrenHead == t[c].nextSibling)
            && (forall x :: x in t && x != c ==> AsChild(t, t', x))
            && (forall x :: x in t && x != p && x != k ==> t'[x].childrenHead == t[x].childrenHead)
  {
  }

  /** The list without its head. */
  lemma PopLinks(t: Table, t': Table, s: seq<Addr>, p: Addr)
    requires Links(t, s, p) && s != [] && p in t' && s[0] in t && t'[p].childrenHead == t[s[0]].nextSibling
    requires forall i :: 1 <= i < |s| ==> AsChild(t, t', s[i])
    ensures Links(t', s[1..], p)
  {
    assert LinkAt(t, s, p, 0);
    forall i | 0 <= i < |s| - 1
      ensures LinkAt(t', s[1..], p, i)
    {
      assert LinkAt(t, s, p, i + 1) && AsChild(t, t', s[i + 1]);
    }
  }

  lemma MovedFamily(t: Table, kids: Kids, kernel: Addr, p: Addr)
    requires Family(t, kids, kernel) && p in kids && p != kernel && kids[p] != [] && kids[p][0] != p
    ensures p in t && kernel in kids && kids[p][0] in t && kids[p][0] != kernel
    ensures var kids' := kids[p := kids[p][1..]][kernel := [kids[p][0]] + kids[kernel]];
            Family(Moved(t, p, kernel, kids[p][0]), kids', kernel)
  {
    hide Links, Kept, Moved;
    KidsOf(t, kids, kernel, p);
    KidsOf(t, kids, kernel, kernel);
    Child(t, kids, kernel, p, 0);
    var c := kids[p][0];
    MovedAt(t, p, kernel, c);
    var t' := Moved(t, p, kernel, c);
    var kids' := kids[p := kids[p][1..]][kernel := [c] + kids[kernel]];
    forall q | q in kids' ensures Links(t', kids'[q], q) { MovedLinks(t, kids, kernel, p, q); }
    forall x | x in t' ensures Kept(t', kids', kernel, x) { MovedIn(t, kids, kernel, p, x); }
    assert kids'.Keys == kids.Keys;
    assert AsChild(t, t', kernel);
  }

  lemma MovedIn(t: Table, kids: Kids, kernel: Addr, p: Addr, x: Addr)
    requires Family(t, kids, kernel) && p in kids && p != kernel && kids[p] != [] && kids[p][0] != p && x in t
    requires p in t && kernel in kids && kids[p][0] in t && kids[p][0] != kernel
    ensures x in Moved(t, p, kernel, kids[p][0])
    ensures var kids' := kids[p := kids[p][1..]][kernel := [kids[p][0]] + kids[kernel]];
            Kept(Moved(t, p, kernel, kids[p][0]), kids', kernel, x)
  {
    hide Moved;
    var c := kids[p][0];
    MovedAt(t, p, kernel, c);
    assert x in t.Keys;
    if x == c {
      assert ([c] + kids[kernel])[0] == x;
    } else if x != kernel {
      Parent(t, kids, kernel, x);
      MovedKept(kids[p], kids[kernel], x);
      hide Family;
      assert AsChild(t, Moved(t, p, kernel, c), x);
    }
  }

  lemma MovedKept(s: seq<Addr>, u: seq<Addr>, x: Addr)
    requires s != [] && x != s[0]
    ensures x in s ==> x in s[1..]
    ensures x in u ==> x in [s[0]] + u
  {
  }

  lemma MovedLinks(t: Table, kids: Kids, kernel: Addr, p: Addr, q: Addr)
    requires Family(t, kids, kernel) && p in kids && p != kernel && kids[p] != [] && kids[p][0] != p && q in kids
    requires p in t && kernel in kids && kids[p][0] in t && kids[p][0] != kernel
    ensures Links(Moved(t, p, kernel, kids[p][0]), kids[p := kids[p][1..]][kernel := [kids[p][0]] + kids[kernel]][q], q)
  {
    hide Links, Moved;
    var c, s := kids[p][0], kids[q];
    var t' := Moved(t, p, kernel, c);
    MovedAt(t, p, kernel, c);
    KidsOf(t, kids, kernel, p);
    KidsOf(t, kids, kernel, q);
    MineIn(t, kids[p], p);
    MineIn(t, s, q);
    assert q in t.Keys;
    hide Family;
    if q == p {
      FirstOnce(t, s, p);
      PopLinks(t, t', s, p);
    } else {
      NotMine(t, s, q, c);
      if q == kernel { PushLinks(t, t', s, q, c); } else { LinksFrame(t, t', s, q); }
    }
  }

  lemma FirstOnce(t: Table, s: seq<Addr>, p: Addr)
    requires Links(t, s, p) && s != []
    ensures forall i :: 1 <= i < |s| ==> s[i] != s[0]
  {
  }

  // ------------------------------------------------------------------- death

  function Cut(s: seq<Addr>, i: nat): seq<Addr>
    requires i < |s|
  {
    s[..i] + s[i + 1..]
  }

  /** Unlinking child `i` of `p`: the pointer to it becomes its own successor. */
  function Unlinked(t: Table, p: Addr, s: seq<Addr>, i: nat): Table
    requires i < |s| && p in t && s[i] in t && (i > 0 ==> s[i - 1] in t)
  {
    if i == 0 then t[p := t[p].(childrenHead := t[s[i]].nextSibling)]
    else t[s[i - 1] := t[s[i - 1]].(nextSibling := t[s[i]].nextSibling)]
  }

  lemma CutLinks(t: Table, p: Addr, s: seq<Addr>, i: nat)
    requires Links(t, s, p) && i < |s| && s[i] != p && s[i] in t && (i > 0 ==> s[i - 1] in t)
    ensures Links(Unlinked(t, p, s, i) - {s[i]}, Cut(s, i), p)
  {
    var c, s' := s[i], Cut(s, i);
    var t' := Unlinked(t, p, s, i) - {c};
    assert LinkAt(t, s, p, i) && (i > 0 ==> LinkAt(t, s, p, i - 1));
    forall j | 0 <= j < |s'| ensures LinkAt(t', s', p, j) {
      assert LinkAt(t, s, p, if j < i then j else j + 1);
    }
  }

  lemma UnlinkedAt(t: Table, p: Addr, s: seq<Addr>, i: nat)
    requires i < |s| && p in t && s[i] in t && (i > 0 ==> s[i - 1] in t) && s[i] != p && (i > 0 ==> s[i - 1] != s[i])
    ensures var t' := Unlinked(t, p, s, i) - {s[i]};
            && t'.Keys == t.Keys - {s[i]}
            && (forall x :: x in t && x !in s ==> AsChild(t, t', x))
            && (forall x :: x in t && x != p && x != s[i] ==> x in t' && t'[x].childrenHead == t[x].childrenHead)
            && (forall x :: x in t' ==> x in t && t'[x].parent == t[x].parent)
  {
  }

  lemma UnlinkedFamily(t: Table, kids: Kids, kernel: Addr, p: Addr, i: nat)
    requires Family(t, kids, kernel) && p in kids && i < |kids[p]| && kids[p][i] in kids && kids[kids[p][i]] == []
    requires kids[p][i] != p
    ensures p in t && kids[p][i] in t && (i > 0 ==> kids[p][i - 1] in t)
    ensures Family(Unlinked(t, p, kids[p], i) - {kids[p][i]}, kids[p := Cut(kids[p], i)] - {kids[p][i]}, kernel)
  {
    hide Links, Kept, Unlinked;
    var s := kids[p];
    var c := s[i];
    Child(t, kids, kernel, p, i);
    KidsOf(t, kids, kernel, p);
    MineIn(t, s, p);
    OnceBefore(t, s, p, i);
    UnlinkedAt(t, p, s, i);
    CutLinks(t, p, s, i);
    var t' := Unlinked(t, p, s, i) - {c};
    var kids' := kids[p := Cut(s, i)] - {c};
    forall q | q in kids' ensures Links(t', kids'[q], q) {
      if q != p { UnlinkedOther(t, t', kids, kernel, p, c, q); }
    }
    forall x | x in t' ensures Kept(t', kids', kernel, x) { UnlinkedIn(t, t', kids, kernel, p, i, x); }
    assert kids'.Keys == kids.Keys - {c};
  }

  lemma OnceBefore(t: Table, s: seq<Addr>, p: Addr, i: nat)
    requires Links(t, s, p) && i < |s|
    ensures i > 0 ==> s[i - 1] != s[i]
  {
  }

  lemma UnlinkedIn(t: Table, t': Table, kids: Kids, kernel: Addr, p: Addr, i: nat, x: Addr)
    requires Family(t, kids, kernel) && p in kids && i < |kids[p]| && kids[p][i] in kids && kids[kids[p][i]] == []
    requires kids[p][i] != p
    requires x in t && x in t' && t'[x].parent == t[x].parent && x != kids[p][i]
    ensures Kept(t', kids[p := Cut(kids[p], i)] - {kids[p][i]}, kernel, x)
  {
    if x != kernel {
      Parent(t, kids, kernel, x);
      ChildlessParent(t, kids, kernel, kids[p][i], x);
      if x in kids[p] { CutKeeps(kids[p], i, x); }
      hide Family;
    }
  }

  lemma ChildlessParent(t: Table, kids: Kids, kernel: Addr, c: Addr, x: Addr)
    requires Family(t, kids, kernel) && c in kids && kids[c] == [] && x in t && x != kernel
    ensures t[x].parent != c
  {
    Parent(t, kids, kernel, x);
  }

  lemma CutKeeps(s: seq<Addr>, i: nat, x: Addr)
    requires i < |s| && x in s && x != s[i]
    ensures x in Cut(s, i)
  {
    var j :| 0 <= j < |s| && s[j] == x;
    assert Cut(s, i)[if j < i then j else j - 1] == x;
  }

  lemma UnlinkedOther(t: Table, t': Table, kids: Kids, kernel: Addr, p: Addr, c: Addr, q: Addr)
    requires Family(t, kids, kernel) && p in kids && q in kids && q != p && q != c
    requires forall x :: x in t && x !in kids[p] ==> AsChild(t, t', x)
    requires forall x :: x in t && x != p && x != c ==> x in t' && t'[x].childrenHead == t[x].childrenHead
    ensures Links(t', kids[q], q)
  {
    hide Links;
    KidsOf(t, kids, kernel, p);
    KidsOf(t, kids, kernel, q);
    MineIn(t, kids[q], q);
    hide Family;
    forall i | 0 <= i < |kids[q]| ensures AsChild(t, t', kids[q][i]) { NotMine(t, kids[p], p, kids[q][i]); }
    LinksFrame(t, t', kids[q], q);
  }
}
