/** The namespace as a value: which inodes are allocated, and the entry list of
    every directory. It is a tree, and the three ways the kernel edits it keep
    it a tree. */
module KfsNames {
  import opened Bits
  import opened KfsFormat
  import opened KfsDirent

  datatype Names = Names(used: set<nat>, dirs: map<nat, seq<Entry>>)

  const ROOT: nat := 0
  const FILE8: U8 := 1
  const DIR8: U8 := 2

  predicate UniqueNames(es: seq<Entry>)
  {
    forall i, j :: 0 <= i < j < |es| ==> es[i].name != es[j].name
  }

  /** Entry `i` of directory `d` is a proper name (not `.` or `..`) of `c`. */
  ghost predicate Link(ns: Names, d: nat, i: nat, c: nat)
  {
    d in ns.dirs && i < |ns.dirs[d]| && !IsDots(ns.dirs[d][i].name) && ns.dirs[d][i].ino == c
  }

  /** `.` and `..` come first in every directory but the root, which has neither. */
  ghost predicate DotsOk(es: seq<Entry>, d: nat, parent: nat)
  {
    && |es| >= 2 && es[0] == Entry(es[0].ino, DIR8, Dot) && es[0].ino == d && es[1] == Entry(es[1].ino, DIR8, DotDot)
    && es[1].ino == parent
  }

  ghost predicate Shape(ns: Names, par: map<nat, nat>, depth: map<nat, nat>)
  {
    ROOT in ns.dirs && ns.dirs.Keys <= ns.used && par.Keys == ns.used - {ROOT} && depth.Keys == ns.used
  }

  ghost predicate EntriesOk(ns: Names)
  {
    forall d: nat :: d in ns.dirs ==> ValidEntries(ns.dirs[d]) && UniqueNames(ns.dirs[d])
  }

  /** Whatever a directory names has that directory as its parent, and the entry
      carries its type. */
  ghost predicate LinksOk(ns: Names, par: map<nat, nat>)
  {
    forall d: nat, i: nat, c: nat :: Link(ns, d, i, c) ==>
        c in par && par[c] == d && ns.dirs[d][i].typ == if c in ns.dirs then DIR8 else FILE8
  }

  ghost predicate LinkedOnce(ns: Names)
  {
    forall d: nat, i: nat, j: nat, c: nat :: Link(ns, d, i, c) && Link(ns, d, j, c) ==> i == j
  }

  ghost predicate AllLinked(ns: Names, par: map<nat, nat>)
  {
    forall c: nat :: c in par ==> exists i: nat :: Link(ns, par[c], i, c)
  }

  ghost predicate Deeper(par: map<nat, nat>, depth: map<nat, nat>)
  {
    && (forall c: nat :: c in par ==> c in depth && par[c] in depth && depth[c] == depth[par[c]] + 1)
    && ROOT in depth && depth[ROOT] == 0
  }

  ghost predicate AllDots(ns: Names, par: map<nat, nat>)
  {
    && (forall d: nat :: d in ns.dirs && d != ROOT ==> d in par && DotsOk(ns.dirs[d], d, par[d]))
    && (ROOT in ns.dirs ==> forall i :: 0 <= i < |ns.dirs[ROOT]| ==> !IsDots(ns.dirs[ROOT][i].name))
  }

  /** `par` gives every inode but the root the one directory that names it;
      `depth` grows by one from a directory to what it names. */
  ghost predicate TreeBy(ns: Names, par: map<nat, nat>, depth: map<nat, nat>)
  {
    && Shape(ns, par, depth) && EntriesOk(ns)
    && LinksOk(ns, par) && LinkedOnce(ns) && AllLinked(ns, par)
    && Deeper(par, depth) && AllDots(ns, par)
  }

  ghost predicate Tree(ns: Names)
  {
    exists par, depth :: TreeBy(ns, par, depth)
  }

  // ------------------------------------------------------------ reading it

  /** Every allocated inode but the root is named by exactly one proper entry. */
  lemma NamedOnce(ns: Names, c: nat)
    requires Tree(ns) && c in ns.used && c != ROOT
    ensures exists d: nat, i: nat :: Link(ns, d, i, c)
    ensures forall d: nat, i: nat, d': nat, i': nat :: Link(ns, d, i, c) && Link(ns, d', i', c) ==> d == d' && i == i'
  {
    var par, depth :| TreeBy(ns, par, depth);
    assert c in par;
  }

  /** `..` of a subdirectory is the directory that names it. */
  lemma DotDotIsParent(ns: Names, d: nat, p: nat, i: nat)
    requires Tree(ns) && d in ns.dirs && Link(ns, p, i, d)
    ensures d != ROOT && |ns.dirs[d]| >= 2 && ns.dirs[d][0].ino == d && ns.dirs[d][1].name == DotDot
    ensures ns.dirs[d][1].ino == p
  {
    var par, depth :| TreeBy(ns, par, depth);
    assert d in par;
  }

  /** Follow a list of names from directory `d`, as lookup does for proper names. */
  ghost function Follow(ns: Names, d: nat, path: seq<Name>): (r: int)
    decreases |path|
  {
    if path == [] then d
    else if d !in ns.dirs then -1
    else
      var i := IndexOf(ns.dirs[d], path[0]);
      if i >= |ns.dirs[d]| then -1 else Follow(ns, ns.dirs[d][i].ino, path[1..])
  }

  ghost predicate Proper(path: seq<Name>)
  {
    forall i :: 0 <= i < |path| ==> !IsDots(path[i])
  }

  lemma FollowConcat(ns: Names, d: nat, p: seq<Name>, q: seq<Name>)
    requires Follow(ns, d, p) >= 0
    ensures Follow(ns, d, p + q) == Follow(ns, Follow(ns, d, p), q)
    decreases |p|
  {
    if p == [] {
      assert p + q == q;
    } else {
      assert (p + q)[1..] == p[1..] + q;
      var i := IndexOf(ns.dirs[d], p[0]);
      FollowConcat(ns, ns.dirs[d][i].ino, p[1..], q);
    }
  }

  lemma FirstMatch(es: seq<Entry>, i: nat)
    requires UniqueNames(es) && i < |es|
    ensures IndexOf(es, es[i].name) == i
  {
  }

  /** The parent directory, and the index of the entry that names `c` there. */
  lemma ParentLink(ns: Names, c: nat, par: map<nat, nat>, depth: map<nat, nat>) returns (i: nat)
    requires TreeBy(ns, par, depth) && c in ns.used && c != ROOT
    ensures c in par && Link(ns, par[c], i, c) && IndexOf(ns.dirs[par[c]], ns.dirs[par[c]][i].name) == i
    ensures par[c] in ns.used && c in depth && par[c] in depth && depth[c] == depth[par[c]] + 1
  {
    hide LinksOk, LinkedOnce, AllDots;
    assert c in par;
    i :| Link(ns, par[c], i, c);
    FirstMatch(ns.dirs[par[c]], i);
  }

  /** Every allocated inode is reached from the root by proper names. */
  lemma Reachable(ns: Names, c: nat, par: map<nat, nat>, depth: map<nat, nat>) returns (path: seq<Name>)
    requires TreeBy(ns, par, depth) && c in ns.used
    ensures c in depth && Proper(path) && Follow(ns, ROOT, path) == c && |path| == depth[c]
    decreases if c in depth then depth[c] else 0
  {
    if c == ROOT {
      path := [];
    } else {
      var i := ParentLink(ns, c, par, depth);
      hide TreeBy, IndexOf, Follow;
      var up := Reachable(ns, par[c], par, depth);
      var e := ns.dirs[par[c]][i];
      path := up + [e.name];
      FollowConcat(ns, ROOT, up, [e.name]);
      FollowOne(ns, par[c], i);
    }
  }

  lemma FollowOne(ns: Names, d: nat, i: nat)
    requires d in ns.dirs && i < |ns.dirs[d]| && IndexOf(ns.dirs[d], ns.dirs[d][i].name) == i
    ensures Follow(ns, d, [ns.dirs[d][i].name]) == ns.dirs[d][i].ino
  {
    assert [ns.dirs[d][i].name][1..] == [];
  }

  lemma OneLink(ns: Names, par: map<nat, nat>, x: nat, i: nat, y: nat, j: nat, c: nat)
    requires LinksOk(ns, par) && LinkedOnce(ns) && Link(ns, x, i, c) && Link(ns, y, j, c)
    ensures x == y && i == j
  {
  }

  /** ... and by only one such path. */
  lemma PathUnique(ns: Names, p: seq<Name>, q: seq<Name>, par: map<nat, nat>, depth: map<nat, nat>)
    requires TreeBy(ns, par, depth) && Proper(p) && Proper(q)
    requires Follow(ns, ROOT, p) == Follow(ns, ROOT, q) >= 0
    ensures p == q
    decreases |p|
  {
    hide LinksOk, LinkedOnce, AllLinked, AllDots, EntriesOk, Shape, Deeper, Follow, IndexOf, IsDots;
    DepthOfPath(ns, p, par, depth);
    DepthOfPath(ns, q, par, depth);
    if p == [] {
    } else {
      var x := LastStep(ns, p);
      var y := LastStep(ns, q);
      OneLink(ns, par, x.0, x.1, y.0, y.1, Follow(ns, ROOT, p));
      var p', q' := p[..|p| - 1], q[..|q| - 1];
      PathUnique(ns, p', q', par, depth);
      assert p == p' + [p[|p| - 1]] && q == q' + [q[|q| - 1]];
    }
  }

  /** The directory and index of the last name on a path. */
  lemma LastStep(ns: Names, p: seq<Name>) returns (x: (nat, nat))
    requires p != [] && Proper(p) && Follow(ns, ROOT, p) >= 0
    ensures Follow(ns, ROOT, p[..|p| - 1]) == x.0
    ensures Link(ns, x.0, x.1, Follow(ns, ROOT, p)) && ns.dirs[x.0][x.1].name == p[|p| - 1]
  {
    var up, last := p[..|p| - 1], p[|p| - 1..];
    assert p == up + last;
    FollowPrefix(ns, ROOT, up, last);
    FollowConcat(ns, ROOT, up, last);
    var d := Follow(ns, ROOT, up);
    var i := IndexOf(ns.dirs[d], last[0]);
    assert Follow(ns, ns.dirs[d][i].ino, last[1..]) == ns.dirs[d][i].ino;
    x := (d, i);
  }

  lemma FollowPrefix(ns: Names, d: nat, p: seq<Name>, q: seq<Name>)
    requires Follow(ns, d, p + q) >= 0
    ensures Follow(ns, d, p) >= 0
    decreases |p|
  {
    if p == [] {
    } else {
      assert (p + q)[1..] == p[1..] + q;
      FollowPrefix(ns, ns.dirs[d][IndexOf(ns.dirs[d], p[0])].ino, p[1..], q);
    }
  }

  lemma DepthOfPath(ns: Names, p: seq<Name>, par: map<nat, nat>, depth: map<nat, nat>)
    requires TreeBy(ns, par, depth) && Proper(p) && Follow(ns, ROOT, p) >= 0
    ensures Follow(ns, ROOT, p) in depth && depth[Follow(ns, ROOT, p)] == |p|
  {
    if p == [] {
    } else {
      var x := LastStep(ns, p);
      DepthOfPath(ns, p[..|p| - 1], par, depth);
      assert Follow(ns, ROOT, p) in par;
    }
  }

  // ------------------------------------------------------------ editing it

  /** A new file or directory `e.ino`, named by a new last entry of `d`. */
  ghost function Add(ns: Names, d: U32, e: Entry): Names
    requires d in ns.dirs
  {
    var dirs := ns.dirs[d := ns.dirs[d] + [e]];
    var dots := [Entry(e.ino, DIR8, Dot), Entry(d, DIR8, DotDot)];
    Names(ns.used + {e.ino}, if e.typ == DIR8 then dirs[e.ino := dots] else dirs)
  }

  /** Entry `i` of `d` and the inode it names are gone. */
  ghost function Remove(ns: Names, d: nat, i: nat): Names
    requires d in ns.dirs && i < |ns.dirs[d]|
  {
    var c := ns.dirs[d][i].ino;
    Names(ns.used - {c}, (ns.dirs - {c})[d := ns.dirs[d][..i] + ns.dirs[d][i + 1..]])
  }

  lemma AddedEntries(ns: Names, d: U32, e: Entry)
    requires d in ns.dirs && e.ino !in ns.dirs
    ensures var ns' := Add(ns, d, e);
            && ns'.used == ns.used + {e.ino}
            && (forall x :: x in ns'.dirs <==> x in ns.dirs || (x == e.ino && e.typ == DIR8))
            && (forall x :: x in ns.dirs && x != d ==> ns'.dirs[x] == ns.dirs[x])
            && ns'.dirs[d] == ns.dirs[d] + [e]
            && (e.typ == DIR8 ==> ns'.dirs[e.ino] == [Entry(e.ino, DIR8, Dot), Entry(d, DIR8, DotDot)])
  {
  }

  /** The new entry is the only new link. */
  lemma AddedLink(ns: Names, d: U32, e: Entry, x: nat, i: nat, c: nat)
    requires d in ns.dirs && e.ino !in ns.dirs && Link(Add(ns, d, e), x, i, c)
    ensures (x == d && i == |ns.dirs[d]| && c == e.ino) || (x in ns.dirs && Link(ns, x, i, c))
  {
    AddedEntries(ns, d, e);
    hide Add;
  }

  lemma KeptLink(ns: Names, d: U32, e: Entry, x: nat, i: nat, c: nat)
    requires d in ns.dirs && e.ino !in ns.dirs && !IsDots(e.name)
    requires Link(ns, x, i, c) || (x == d && i == |ns.dirs[d]| && c == e.ino)
    ensures Link(Add(ns, d, e), x, i, c)
  {
    AddedEntries(ns, d, e);
    hide Add;
  }

  lemma AddEntriesOk(ns: Names, d: U32, e: Entry)
    requires EntriesOk(ns) && d in ns.dirs && e.ino !in ns.dirs
    requires ValidName(e.name) && IndexOf(ns.dirs[d], e.name) == |ns.dirs[d]|
    ensures EntriesOk(Add(ns, d, e))
  {
    AddedEntries(ns, d, e);
    hide Add;
    assert UniqueNames(ns.dirs[d] + [e]);
  }

  lemma AddLinksOk(ns: Names, d: U32, e: Entry, par: map<nat, nat>)
    requires LinksOk(ns, par) && par.Keys <= ns.used && d in ns.dirs && ns.dirs.Keys <= ns.used
    requires e.ino !in ns.used && (e.typ == FILE8 || e.typ == DIR8)
    ensures LinksOk(Add(ns, d, e), par[e.ino := d])
  {
    AddedEntries(ns, d, e);
    hide Add;
    forall x: nat, i: nat, c: nat | Link(Add(ns, d, e), x, i, c)
      ensures var ns', par' := Add(ns, d, e), par[e.ino := d];
              c in par' && par'[c] == x && ns'.dirs[x][i].typ == if c in ns'.dirs then DIR8 else FILE8
    {
      AddedLink(ns, d, e, x, i, c);
    }
  }

  lemma AddLinkedOnce(ns: Names, d: U32, e: Entry, par: map<nat, nat>)
    requires LinkedOnce(ns) && LinksOk(ns, par) && par.Keys <= ns.used
    requires d in ns.dirs && e.ino !in ns.dirs && e.ino !in ns.used
    ensures LinkedOnce(Add(ns, d, e))
  {
    hide Add;
    forall x: nat, i: nat, j: nat, c: nat | Link(Add(ns, d, e), x, i, c) && Link(Add(ns, d, e), x, j, c)
      ensures i == j
    {
      AddedLink(ns, d, e, x, i, c);
      AddedLink(ns, d, e, x, j, c);
    }
  }

  lemma AddAllLinked(ns: Names, d: U32, e: Entry, par: map<nat, nat>)
    requires AllLinked(ns, par) && d in ns.dirs && e.ino !in ns.dirs && !IsDots(e.name)
    ensures AllLinked(Add(ns, d, e), par[e.ino := d])
  {
    hide Add;
    var par' := par[e.ino := d];
    forall c: nat | c in par' ensures exists i: nat :: Link(Add(ns, d, e), par'[c], i, c) {
      if c == e.ino {
        KeptLink(ns, d, e, d, |ns.dirs[d]|, c);
      } else {
        var i: nat :| Link(ns, par[c], i, c);
        KeptLink(ns, d, e, par[c], i, c);
      }
    }
  }

  lemma AddAllDots(ns: Names, d: U32, e: Entry, par: map<nat, nat>)
    requires AllDots(ns, par) && d in ns.dirs && e.ino !in ns.dirs && e.ino != ROOT && !IsDots(e.name)
    ensures AllDots(Add(ns, d, e), par[e.ino := d])
  {
    AddedEntries(ns, d, e);
    hide Add;
    assert d != ROOT ==> DotsOk(ns.dirs[d], d, par[d]);
  }

  lemma AddTreeBy(ns: Names, d: U32, e: Entry, par: map<nat, nat>, depth: map<nat, nat>)
    requires TreeBy(ns, par, depth) && d in ns.dirs
    requires e.ino !in ns.used && (e.typ == FILE8 || e.typ == DIR8)
    requires ValidName(e.name) && !IsDots(e.name) && IndexOf(ns.dirs[d], e.name) == |ns.dirs[d]|
    ensures d in depth && TreeBy(Add(ns, d, e), par[e.ino := d], depth[e.ino := depth[d] + 1])
  {
    hide Add, EntriesOk, LinksOk, LinkedOnce, AllLinked, AllDots, Deeper, IndexOf, DotsOk, IsDots, ValidName;
    AddedEntries(ns, d, e);
    AddDeeper(par, depth, d, e.ino);
    AddEntriesOk(ns, d, e);
    AddLinksOk(ns, d, e, par);
    AddLinkedOnce(ns, d, e, par);
    AddAllLinked(ns, d, e, par);
    AddAllDots(ns, d, e, par);
  }

  lemma AddDeeper(par: map<nat, nat>, depth: map<nat, nat>, d: nat, c: nat)
    requires Deeper(par, depth) && d in depth && c !in depth
    ensures Deeper(par[c := d], depth[c := depth[d] + 1])
  {
  }

  /** Creating keeps the tree, when the name is new in its directory. */
  lemma AddTree(ns: Names, d: U32, e: Entry)
    requires Tree(ns) && d in ns.dirs
    requires e.ino !in ns.used && (e.typ == FILE8 || e.typ == DIR8)
    requires ValidName(e.name) && !IsDots(e.name) && IndexOf(ns.dirs[d], e.name) == |ns.dirs[d]|
    ensures Tree(Add(ns, d, e))
  {
    hide Add, TreeBy, IndexOf;
    var par, depth :| TreeBy(ns, par, depth);
    AddTreeBy(ns, d, e, par, depth);
  }

  // ------------------------------------------------------------- removing

  lemma RemovedEntries(ns: Names, d: nat, i: nat)
    requires d in ns.dirs && i < |ns.dirs[d]| && ns.dirs[d][i].ino != d
    ensures var ns', es, c := Remove(ns, d, i), ns.dirs[d], ns.dirs[d][i].ino;
            && ns'.used == ns.used - {c}
            && (forall x :: x in ns'.dirs <==> x in ns.dirs && x != c)
            && (forall x :: x in ns'.dirs && x != d ==> ns'.dirs[x] == ns.dirs[x])
            && |ns'.dirs[d]| == |es| - 1
            && (forall j :: 0 <= j < |es| - 1 ==> ns'.dirs[d][j] == es[if j < i then j else j + 1])
  {
  }

  /** What is still linked was linked before. */
  lemma RemovedLink(ns: Names, d: nat, i: nat, x: nat, j: nat, y: nat)
    requires d in ns.dirs && i < |ns.dirs[d]| && ns.dirs[d][i].ino != d
    requires Link(Remove(ns, d, i), x, j, y)
    ensures x != ns.dirs[d][i].ino && Link(ns, x, if x == d && j >= i then j + 1 else j, y)
    ensures Remove(ns, d, i).dirs[x][j] == ns.dirs[x][if x == d && j >= i then j + 1 else j]
  {
    RemovedEntries(ns, d, i);
    hide Remove;
  }

  /** What was linked is still linked, unless it was the removed entry or stood
      in the removed directory. */
  lemma RemainingLink(ns: Names, d: nat, i: nat, x: nat, j: nat, y: nat)
    requires d in ns.dirs && i < |ns.dirs[d]| && ns.dirs[d][i].ino != d
    requires Link(ns, x, j, y) && x != ns.dirs[d][i].ino && !(x == d && j == i)
    ensures Link(Remove(ns, d, i), x, if x == d && j > i then j - 1 else j, y)
  {
    RemovedEntries(ns, d, i);
    hide Remove;
  }

  lemma RemoveEntriesOk(ns: Names, d: nat, i: nat)
    requires EntriesOk(ns) && d in ns.dirs && i < |ns.dirs[d]| && ns.dirs[d][i].ino != d
    ensures EntriesOk(Remove(ns, d, i))
  {
    RemovedEntries(ns, d, i);
    hide Remove, ValidName;
    var es := ns.dirs[d];
    assert ValidEntries(es) && UniqueNames(es);
    var es' := Remove(ns, d, i).dirs[d];
    assert UniqueNames(es') && ValidEntries(es');
  }

  lemma RemoveLinksOk(ns: Names, d: nat, i: nat, par: map<nat, nat>)
    requires LinksOk(ns, par) && LinkedOnce(ns)
    requires d in ns.dirs && i < |ns.dirs[d]| && ns.dirs[d][i].ino != d && !IsDots(ns.dirs[d][i].name)
    ensures LinksOk(Remove(ns, d, i), par - {ns.dirs[d][i].ino})
    ensures LinkedOnce(Remove(ns, d, i))
  {
    var c := ns.dirs[d][i].ino;
    RemovedEntries(ns, d, i);
    hide Remove;
    assert Link(ns, d, i, c);
    var ns', par' := Remove(ns, d, i), par - {c};
    forall x: nat, j: nat, y: nat | Link(ns', x, j, y)
      ensures y in par' && par'[y] == x && ns'.dirs[x][j].typ == if y in ns'.dirs then DIR8 else FILE8
    {
      RemovedLink(ns, d, i, x, j, y);
    }
    forall x: nat, j: nat, k: nat, y: nat | Link(ns', x, j, y) && Link(ns', x, k, y) ensures j == k {
      RemovedLink(ns, d, i, x, j, y);
      RemovedLink(ns, d, i, x, k, y);
    }
  }

  /** Nothing that stays has the removed inode as its parent. */
  lemma NotParent(ns: Names, par: map<nat, nat>, c: nat, y: nat)
    requires AllLinked(ns, par) && y in par && (c in ns.dirs ==> OnlyDots(ns.dirs[c]))
    ensures par[y] != c
  {
    var j: nat :| Link(ns, par[y], j, y);
  }

  lemma RemoveAllLinked(ns: Names, d: nat, i: nat, par: map<nat, nat>)
    requires AllLinked(ns, par) && LinksOk(ns, par)
    requires d in ns.dirs && i < |ns.dirs[d]| && ns.dirs[d][i].ino != d
    requires ns.dirs[d][i].ino in ns.dirs ==> OnlyDots(ns.dirs[ns.dirs[d][i].ino])
    ensures AllLinked(Remove(ns, d, i), par - {ns.dirs[d][i].ino})
  {
    hide Remove;
    var c := ns.dirs[d][i].ino;
    var par' := par - {c};
    forall y: nat | y in par' ensures exists j: nat :: Link(Remove(ns, d, i), par'[y], j, y) {
      NotParent(ns, par, c, y);
      var j: nat :| Link(ns, par[y], j, y);
      assert par[y] == d && j == i ==> y == c;
      RemainingLink(ns, d, i, par[y], j, y);
      assert Link(Remove(ns, d, i), par'[y], if par[y] == d && j > i then j - 1 else j, y);
    }
  }

  lemma RemoveDeeper(ns: Names, c: nat, par: map<nat, nat>, depth: map<nat, nat>)
    requires Deeper(par, depth) && AllLinked(ns, par) && c != ROOT && (c in ns.dirs ==> OnlyDots(ns.dirs[c]))
    ensures Deeper(par - {c}, depth - {c})
  {
    forall y: nat | y in par - {c} ensures par[y] in depth - {c} { NotParent(ns, par, c, y); }
  }

  lemma RemoveAllDots(ns: Names, d: nat, i: nat, par: map<nat, nat>)
    requires AllDots(ns, par) && ROOT in ns.dirs
    requires d in ns.dirs && i < |ns.dirs[d]| && ns.dirs[d][i].ino != d && !IsDots(ns.dirs[d][i].name)
    ensures AllDots(Remove(ns, d, i), par - {ns.dirs[d][i].ino})
  {
    RemovedEntries(ns, d, i);
    hide Remove;
    if d != ROOT {
      assert DotsOk(ns.dirs[d], d, par[d]);
      assert i >= 2;
    }
  }

  lemma RemoveTreeBy(ns: Names, d: nat, i: nat, par: map<nat, nat>, depth: map<nat, nat>)
    requires TreeBy(ns, par, depth) && d in ns.dirs && i < |ns.dirs[d]| && !IsDots(ns.dirs[d][i].name)
    requires ns.dirs[d][i].ino in ns.dirs ==> OnlyDots(ns.dirs[ns.dirs[d][i].ino])
    ensures var c := ns.dirs[d][i].ino; c != d && TreeBy(Remove(ns, d, i), par - {c}, depth - {c})
  {
    hide Remove, EntriesOk, LinksOk, LinkedOnce, AllLinked, AllDots, Deeper, OnlyDots, Link, IsDots;
    var c := ns.dirs[d][i].ino;
    ChildOf(ns, d, i, par, depth);
    RemovedEntries(ns, d, i);
    RemoveEntriesOk(ns, d, i);
    RemoveLinksOk(ns, d, i, par);
    RemoveAllLinked(ns, d, i, par);
    RemoveDeeper(ns, c, par, depth);
    RemoveAllDots(ns, d, i, par);
  }

  lemma ChildOf(ns: Names, d: nat, i: nat, par: map<nat, nat>, depth: map<nat, nat>)
    requires LinksOk(ns, par) && Deeper(par, depth) && Shape(ns, par, depth)
    requires d in ns.dirs && i < |ns.dirs[d]| && !IsDots(ns.dirs[d][i].name)
    ensures var c := ns.dirs[d][i].ino; c in par && par[c] == d && c != d && c != ROOT
  {
    var c := ns.dirs[d][i].ino;
    assert Link(ns, d, i, c);
    assert depth[c] == depth[par[c]] + 1;
  }

  /** Removing keeps the tree, when what is removed names nothing itself: no
      allocated inode loses its name. */
  lemma RemoveTree(ns: Names, d: nat, i: nat)
    requires Tree(ns) && d in ns.dirs && i < |ns.dirs[d]| && !IsDots(ns.dirs[d][i].name)
    requires ns.dirs[d][i].ino in ns.dirs ==> OnlyDots(ns.dirs[ns.dirs[d][i].ino])
    ensures Tree(Remove(ns, d, i)) && ns.dirs[d][i].ino != d
  {
    hide Remove, TreeBy;
    var par, depth :| TreeBy(ns, par, depth);
    RemoveTreeBy(ns, d, i, par, depth);
  }

  // ------------------------------------------------- rewriting a directory

  /** Some proper entry has this inode and this type. */
  predicate ListsInode(es: seq<Entry>, ino: U32, typ: U8)
  {
    exists i :: 0 <= i < |es| && !IsDots(es[i].name) && es[i].ino == ino && es[i].typ == typ
  }

  predicate Covers(es: seq<Entry>, es': seq<Entry>)
  {
    forall i :: 0 <= i < |es| && !IsDots(es[i].name) ==> ListsInode(es', es[i].ino, es[i].typ)
  }

  predicate NamedApart(es: seq<Entry>)
  {
    forall i, j :: 0 <= i < j < |es| && !IsDots(es[i].name) && !IsDots(es[j].name) ==> es[i].ino != es[j].ino
  }

  /** `es'` lists what `es` lists in directory `d`: `.` and `..` are as they were, the
      same inodes are named with the same types, each once, and the names are valid
      and distinct. Order and names may differ. */
  predicate Relists(d: nat, es: seq<Entry>, es': seq<Entry>)
  {
    && ValidEntries(es') && UniqueNames(es') && NamedApart(es') && Covers(es, es') && Covers(es', es)
    && if d == ROOT then forall i :: 0 <= i < |es'| ==> !IsDots(es'[i].name)
       else 2 <= |es| && 2 <= |es'| && es'[0] == es[0] && es'[1] == es[1]
  }

  /** The namespace in which directory `d` has the entries `es`. */
  ghost function Relisted(ns: Names, d: nat, es: seq<Entry>): Names
  {
    Names(ns.used, ns.dirs[d := es])
  }

  lemma OtherLink(ns: Names, d: nat, es': seq<Entry>, x: nat, i: nat, c: nat)
    requires x != d
    ensures Link(Relisted(ns, d, es'), x, i, c) <==> Link(ns, x, i, c)
  {
  }

  /** What one of two lists that cover each other links, the other links too. */
  lemma CoveredLink(ns: Names, ns': Names, d: nat, i: nat, c: nat) returns (j: nat)
    requires d in ns'.dirs && Link(ns, d, i, c) && Covers(ns.dirs[d], ns'.dirs[d])
    ensures Link(ns', d, j, c) && ns'.dirs[d][j].typ == ns.dirs[d][i].typ
  {
    var e := ns.dirs[d][i];
    assert ListsInode(ns'.dirs[d], e.ino, e.typ);
    j :| 0 <= j < |ns'.dirs[d]| && !IsDots(ns'.dirs[d][j].name)
      && ns'.dirs[d][j].ino == e.ino && ns'.dirs[d][j].typ == e.typ;
  }

  lemma RelistLinksOk(ns: Names, d: nat, es': seq<Entry>, par: map<nat, nat>)
    requires LinksOk(ns, par) && d in ns.dirs && Relists(d, ns.dirs[d], es')
    ensures LinksOk(Relisted(ns, d, es'), par)
  {
    hide Covers;
    var ns' := Relisted(ns, d, es');
    forall x: nat, i: nat, c: nat | Link(ns', x, i, c)
      ensures c in par && par[c] == x && ns'.dirs[x][i].typ == if c in ns'.dirs then DIR8 else FILE8
    {
      if x == d { var j := CoveredLink(ns', ns, d, i, c); } else { OtherLink(ns, d, es', x, i, c); }
    }
  }

  lemma RelistLinked(ns: Names, d: nat, es': seq<Entry>, par: map<nat, nat>)
    requires LinkedOnce(ns) && AllLinked(ns, par) && d in ns.dirs && Relists(d, ns.dirs[d], es')
    ensures LinkedOnce(Relisted(ns, d, es')) && AllLinked(Relisted(ns, d, es'), par)
  {
    hide Covers;
    var ns' := Relisted(ns, d, es');
    forall x: nat, i: nat, j: nat, c: nat | Link(ns', x, i, c) && Link(ns', x, j, c) ensures i == j {
      if x != d { OtherLink(ns, d, es', x, i, c); OtherLink(ns, d, es', x, j, c); }
    }
    forall c: nat | c in par ensures exists i: nat :: Link(ns', par[c], i, c) {
      var i: nat :| Link(ns, par[c], i, c);
      if par[c] == d { var j := CoveredLink(ns, ns', d, i, c); } else { OtherLink(ns, d, es', par[c], i, c); }
    }
  }

  lemma RelistDots(ns: Names, d: nat, es': seq<Entry>, par: map<nat, nat>)
    requires AllDots(ns, par) && EntriesOk(ns) && d in ns.dirs && Relists(d, ns.dirs[d], es')
    ensures AllDots(Relisted(ns, d, es'), par) && EntriesOk(Relisted(ns, d, es'))
  {
    hide Covers, NamedApart, ValidEntries, UniqueNames;
  }

  lemma RelistKeeps(ns: Names, d: nat, es': seq<Entry>, par: map<nat, nat>, depth: map<nat, nat>)
    requires TreeBy(ns, par, depth) && d in ns.dirs && Relists(d, ns.dirs[d], es')
    ensures TreeBy(Relisted(ns, d, es'), par, depth)
  {
    hide LinksOk, LinkedOnce, AllLinked, AllDots, EntriesOk, Deeper, Relists;
    RelistLinksOk(ns, d, es', par);
    RelistLinked(ns, d, es', par);
    RelistDots(ns, d, es', par);
  }

  /** A tree in which `d` has the entries `es'` has the same parents. */
  lemma SameParent(ns: Names, d: nat, es': seq<Entry>, par: map<nat, nat>, par': map<nat, nat>, c: nat)
    requires d in ns.dirs && par.Keys == par'.Keys && c in par
    requires LinksOk(ns, par) && AllLinked(ns, par)
    requires var ns' := Relisted(ns, d, es'); LinksOk(ns', par') && AllLinked(ns', par')
    ensures par[c] == par'[c]
  {
    hide Link;
    var ns' := Relisted(ns, d, es');
    var i: nat :| Link(ns, par[c], i, c);
    var j: nat :| Link(ns', par'[c], j, c);
    if par[c] != d {
      OtherLink(ns, d, es', par[c], i, c);
    } else if par'[c] != d {
      OtherLink(ns, d, es', par'[c], j, c);
    }
  }

  /** Each inode that one list links, the other links, with the type it has. */
  lemma TreeCovers(ns: Names, ns': Names, d: nat, par: map<nat, nat>)
    requires LinksOk(ns, par) && LinksOk(ns', par) && AllLinked(ns', par) && d in ns.dirs && d in ns'.dirs
    requires ns.dirs.Keys == ns'.dirs.Keys
    ensures Covers(ns.dirs[d], ns'.dirs[d])
  {
    var es, es' := ns.dirs[d], ns'.dirs[d];
    forall i | 0 <= i < |es| && !IsDots(es[i].name) ensures ListsInode(es', es[i].ino, es[i].typ) {
      var c := es[i].ino;
      assert Link(ns, d, i, c);
      assert par[c] == d;
      var j: nat :| Link(ns', par[c], j, c);
      assert es'[j].ino == c && es'[j].typ == es[i].typ;
    }
  }

  lemma TreeApart(ns: Names, d: nat)
    requires LinkedOnce(ns) && d in ns.dirs
    ensures NamedApart(ns.dirs[d])
  {
    var es := ns.dirs[d];
    forall i, j | 0 <= i < j < |es| && !IsDots(es[i].name) && !IsDots(es[j].name) ensures es[i].ino != es[j].ino {
      assert Link(ns, d, i, es[i].ino) && Link(ns, d, j, es[j].ino);
    }
  }

  lemma RelistNeeds(ns: Names, d: nat, es': seq<Entry>, par: map<nat, nat>, depth: map<nat, nat>,
                    par': map<nat, nat>, depth': map<nat, nat>)
    requires TreeBy(ns, par, depth) && d in ns.dirs && TreeBy(Relisted(ns, d, es'), par', depth')
    ensures Relists(d, ns.dirs[d], es')
  {
    hide LinksOk, LinkedOnce, AllLinked, Deeper, Covers, NamedApart, ListsInode;
    var ns' := Relisted(ns, d, es');
    assert par.Keys == par'.Keys;
    forall c: nat | c in par ensures par[c] == par'[c] { SameParent(ns, d, es', par, par', c); }
    assert par == par';
    assert ns.dirs.Keys == ns'.dirs.Keys;
    TreeCovers(ns, ns', d, par);
    TreeCovers(ns', ns, d, par);
    TreeApart(ns', d);
    assert ns'.dirs[d] == es';
    if d != ROOT {
      assert DotsOk(ns.dirs[d], d, par[d]) && DotsOk(es', d, par[d]);
    }
  }

  /** Giving a directory another list of entries keeps the tree exactly when that
      list lists the same. */
  lemma RelistTree(ns: Names, d: nat, es': seq<Entry>)
    requires Tree(ns) && d in ns.dirs
    ensures Tree(Relisted(ns, d, es')) <==> Relists(d, ns.dirs[d], es')
  {
    hide TreeBy, Relists, Relisted;
    var par, depth :| TreeBy(ns, par, depth);
    if Relists(d, ns.dirs[d], es') {
      RelistKeeps(ns, d, es', par, depth);
    }
    if Tree(Relisted(ns, d, es')) {
      var par', depth' :| TreeBy(Relisted(ns, d, es'), par', depth');
      RelistNeeds(ns, d, es', par, depth, par', depth');
    }
  }

  /** The empty list lists the same exactly as the empty root. */
  lemma RelistNothing(ns: Names, d: nat)
    requires Tree(ns) && d in ns.dirs
    ensures Relists(d, ns.dirs[d], []) <==> d == ROOT && ns.dirs[ROOT] == []
  {
    hide EntriesOk, LinksOk, LinkedOnce, AllLinked, Deeper;
    var par, depth :| TreeBy(ns, par, depth);
    if d == ROOT && ns.dirs[ROOT] != [] {
      var e := ns.dirs[ROOT][0];
      assert !IsDots(e.name) && !ListsInode([], e.ino, e.typ);
    }
  }

  // ------------------------------------------------- what names lead to after it

  /** Directory `d` has an entry of this name for inode `c`. */
  ghost predicate Lists(ns: Names, d: nat, name: Name, c: nat)
  {
    d in ns.dirs && exists i :: 0 <= i < |ns.dirs[d]| && ns.dirs[d][i].name == name && ns.dirs[d][i].ino == c
  }

  /** Adding lists the new inode under its name, gives a new directory its two dot
      entries, and lists nothing else. */
  lemma AddLists(ns: Names, d: U32, e: Entry, x: nat, name: Name, c: nat)
    requires d in ns.dirs && e.ino !in ns.dirs
    ensures Lists(Add(ns, d, e), x, name, c) <==>
              || Lists(ns, x, name, c)
              || (x == d && name == e.name && c == e.ino)
              || (e.typ == DIR8 && x == e.ino && ((name == [46] && c == e.ino) || (name == [46, 46] && c == d)))
  {
    var ns' := Add(ns, d, e);
    AddedEntries(ns, d, e);
    hide Add;
    if x == d {
      var es, es' := ns.dirs[d], ns'.dirs[d];
      if i :| 0 <= i < |es| && es[i].name == name && es[i].ino == c { assert es'[i] == es[i]; }
      assert es'[|es|] == e;
    } else if x == e.ino && e.typ == DIR8 {
      var dots := ns'.dirs[x];
      assert dots[0] == Entry(e.ino, DIR8, Dot) && dots[1] == Entry(d, DIR8, DotDot);
    }
  }

  /** Removing the entry that was added last undoes the addition. */
  lemma RemoveUndoesAdd(ns: Names, d: U32, e: Entry)
    requires d in ns.dirs && e.ino !in ns.dirs && e.ino !in ns.used && d in ns.used
    ensures d in Add(ns, d, e).dirs && Add(ns, d, e).dirs[d] == ns.dirs[d] + [e]
    ensures Remove(Add(ns, d, e), d, |ns.dirs[d]|) == ns
  {
    var n, es := |ns.dirs[d]|, ns.dirs[d] + [e];
    assert es[..n] + es[n + 1..] == ns.dirs[d];
    var dirs := (Add(ns, d, e).dirs - {e.ino})[d := ns.dirs[d]];
    assert dirs == ns.dirs;
  }

  /** Removing unlists the name in `d` and everything the removed inode listed, and
      nothing else. */
  lemma RemoveLists(ns: Names, d: nat, i: nat, x: nat, name: Name, y: nat)
    requires d in ns.dirs && i < |ns.dirs[d]| && ns.dirs[d][i].ino != d && UniqueNames(ns.dirs[d])
    ensures Lists(Remove(ns, d, i), x, name, y) <==>
              Lists(ns, x, name, y) && x != ns.dirs[d][i].ino && !(x == d && name == ns.dirs[d][i].name)
  {
    var ns', es := Remove(ns, d, i), ns.dirs[d];
    RemovedEntries(ns, d, i);
    hide Remove;
    if x == d {
      var es' := ns'.dirs[d];
      if j :| 0 <= j < |es| && es[j].name == name && es[j].ino == y && j != i {
        assert es'[if j < i then j else j - 1] == es[j];
      }
    }
  }

  lemma IndexOfMore(es: seq<Entry>, e: Entry, name: Name)
    ensures IndexOf(es + [e], name) ==
              if IndexOf(es, name) < |es| then IndexOf(es, name) else if e.name == name then |es| else |es| + 1
  {
    var k, k' := IndexOf(es, name), IndexOf(es + [e], name);
    if k < |es| { assert (es + [e])[k] == es[k]; }
    if k' < |es| { assert (es + [e])[k'] == es[k']; }
    assert (es + [e])[|es|] == e;
  }

  lemma IndexOfDots(es: seq<Entry>, name: Name)
    requires OnlyDots(es) && !IsDots(name)
    ensures IndexOf(es, name) == |es|
  {
  }

  /** The path to the directory that the last name is looked up in. */
  function Stem(p: seq<Name>): seq<Name>
    requires p != []
  {
    p[..|p| - 1]
  }

  lemma StemStep(p: seq<Name>)
    requires |p| >= 2
    ensures Stem(p) != [] && Stem(p)[0] == p[0] && Stem(p)[1..] == Stem(p[1..]) && p[1..][|p| - 2] == p[|p| - 1]
  {
  }

  /** After an addition every proper path that led somewhere leads there still, the
      new path leads to the new inode, and every other one still leads nowhere. */
  lemma {:induction false} AddPaths(ns: Names, d: U32, e: Entry, x: nat, p: seq<Name>)
    requires d in ns.dirs && e.ino !in ns.dirs && IndexOf(ns.dirs[d], e.name) == |ns.dirs[d]|
    requires Tree(ns) && e.ino !in ns.used && Proper(p) && x != e.ino
    ensures Follow(Add(ns, d, e), x, p) ==
              if Follow(ns, x, p) >= 0 then Follow(ns, x, p)
              else if p[|p| - 1] == e.name && Follow(ns, x, Stem(p)) == d then e.ino
              else -1
    decreases |p|
  {
    hide IndexOf, Stem, Tree;
    var ns' := Add(ns, d, e);
    AddedEntries(ns, d, e);
    hide Add;
    if p == [] {
    } else {
      if |p| >= 2 { StemStep(p); } else { assert Stem(p) == [] by { StemOne(p); } }
      if x in ns.dirs {
        var es, i := ns.dirs[x], IndexOf(ns.dirs[x], p[0]);
        IndexOfMore(es, e, p[0]);
        if i < |es| {
          ChildUsed(ns, x, i);
          AddPaths(ns, d, e, es[i].ino, p[1..]);
        } else if x == d && p[0] == e.name && |p| >= 2 {
          assert !IsDots(p[1..][0]);
          if e.typ == DIR8 { IndexOfDots(ns'.dirs[e.ino], p[1..][0]); }
        }
      }
    }
  }

  lemma StemOne(p: seq<Name>)
    requires |p| == 1
    ensures Stem(p) == []
  {
  }

  /** After a removal the proper paths to the removed inode lead nowhere, and every
      other one leads where it did. */
  lemma {:induction false} RemovePaths(ns: Names, d: nat, i: nat, x: nat, p: seq<Name>)
    requires Tree(ns) && d in ns.dirs && i < |ns.dirs[d]| && !IsDots(ns.dirs[d][i].name) && Proper(p)
    requires ns.dirs[d][i].ino in ns.dirs ==> OnlyDots(ns.dirs[ns.dirs[d][i].ino])
    requires x != ns.dirs[d][i].ino
    ensures Follow(Remove(ns, d, i), x, p) ==
              if Follow(ns, x, p) == ns.dirs[d][i].ino then -1 else Follow(ns, x, p)
    decreases |p|
  {
    hide IndexOf, Tree;
    var ns', c := Remove(ns, d, i), ns.dirs[d][i].ino as nat;
    RemoveTree(ns, d, i);
    RemovedEntries(ns, d, i);
    hide Remove;
    if p == [] || x !in ns.dirs {
    } else {
      var es, j := ns.dirs[x], IndexOf(ns.dirs[x], p[0]);
      TreeUnique(ns, x);
      if x == d { IndexOfLess(es, i, ns'.dirs[d], p[0]); }
      if j < |es| {
        assert Link(ns, x, j, es[j].ino);
        if es[j].ino == c {
          ChildUsed(ns, d, i);
          NamedOnce(ns, c);
          assert Link(ns, d, i, c);
          if |p| >= 2 && c in ns.dirs { IndexOfDots(ns.dirs[c], p[1..][0]); }
        } else {
          RemovePaths(ns, d, i, es[j].ino, p[1..]);
        }
      }
    }
  }

  lemma ChildUsed(ns: Names, d: nat, i: nat)
    requires Tree(ns) && d in ns.dirs && i < |ns.dirs[d]| && !IsDots(ns.dirs[d][i].name)
    ensures ns.dirs[d][i].ino in ns.used && ns.dirs[d][i].ino != ROOT
  {
    var par, depth :| TreeBy(ns, par, depth);
    assert Link(ns, d, i, ns.dirs[d][i].ino);
  }

  lemma TreeUnique(ns: Names, d: nat)
    requires Tree(ns) && d in ns.dirs
    ensures UniqueNames(ns.dirs[d])
  {
    var par, depth :| TreeBy(ns, par, depth);
    assert EntriesOk(ns);
  }

  lemma IndexOfLess(es: seq<Entry>, i: nat, es': seq<Entry>, name: Name)
    requires i < |es| && |es'| == |es| - 1 && UniqueNames(es)
    requires forall j :: 0 <= j < |es| - 1 ==> es'[j] == es[if j < i then j else j + 1]
    ensures var k := IndexOf(es, name);
            IndexOf(es', name) == if k == i then |es'| else if k < i then k else k - 1
  {
    hide IndexOf;
    var k, k' := IndexOf(es, name), IndexOf(es', name);
    if k < |es| && k != i { assert es'[if k < i then k else k - 1] == es[k]; }
    if k' < |es'| { assert es'[k'] == es[if k' < i then k' else k' + 1]; }
  }
}
