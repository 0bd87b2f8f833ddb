/** The exit, wait and wake protocol of kernel/process/process.c, sys_waitpid in
    kernel/syscall/syscall.c and the waiter functions of kernel/thread/thread.c.
    Interrupts are masked throughout each of these, so each is one step. */
module Wait {
  import opened Processes
  import R = Ring

  type Tid = nat

  datatype Thr = Thr(state: R.State, process: Addr)

  type Threads = map<Tid, Thr>

  /** waitpid's pid argument: a child's pid, or -1 for any child. */
  predicate Matches(p: Proc, pid: int)
  {
    pid == -1 || p.pid == pid
  }

  predicate Waiting(th: Thr)
  {
    th.state == R.WaitingChild
  }

  // -------------------------------------------------------------- invariants

  ghost predicate Older(t: Table, kernel: Addr, c: Addr)
    requires c in t
  {
    c != kernel ==> t[c].parent in t && t[t[c].parent].pid < t[c].pid
  }

  predicate Differ(t: Table, p: Addr, q: Addr)
    requires p in t && q in t
  {
    t[p].pid != t[q].pid
  }

  /** Process ids are never used twice, and parents come before children. */
  ghost predicate Pids(t: Table, kernel: Addr, nextPid: nat)
  {
    && (forall p :: p in t ==> t[p].pid < nextPid)
    && (forall p, q :: p in t && q in t && p != q ==> Differ(t, p, q))
    && (forall c :: c in t ==> Older(t, kernel, c))
  }

  ghost predicate Childless(t: Table, kids: Kids)
  {
    forall p :: p in t && t[p].zombie ==> p in kids && kids[p] == []
  }

  /** A zombie is recorded with the status it exited with; a process that runs has
      not exited; a process that was reaped is gone. */
  ghost predicate Recorded(p: Proc, exited: map<nat, int>, reaped: set<nat>)
  {
    && p.pid !in reaped
    && if p.zombie then p.pid in exited && exited[p.pid] == p.status else p.pid !in exited
  }

  ghost predicate IsZombie(t: Table, pid: nat)
  {
    exists p :: p in t && t[p].zombie && t[p].pid == pid
  }

  ghost predicate History(t: Table, exited: map<nat, int>, reaped: set<nat>, nextPid: nat)
  {
    && (forall p :: p in t ==> Recorded(t[p], exited, reaped))
    && (forall x :: x in exited ==> x < nextPid && (x in reaped || IsZombie(t, x)))
    && (forall x :: x in reaped ==> x in exited)
  }

  /** Threads of a process that exited are dead. */
  ghost predicate Alive(t: Table, thr: Threads)
  {
    forall x :: x in thr && thr[x].state != R.Dead ==> thr[x].process in t && !t[thr[x].process].zombie
  }

  /** A registered waiter is a thread of that process that waits for a child. */
  ghost predicate Waiters(t: Table, thr: Threads)
  {
    forall p :: p in t && !t[p].zombie && t[p].waiter != 0 ==>
        t[p].waiter in thr && thr[t[p].waiter] == Thr(R.WaitingChild, p)
  }

  ghost predicate NoMatch(t: Table, s: seq<Addr>, pid: int)
  {
    forall i :: 0 <= i < |s| ==> s[i] in t && !(t[s[i]].zombie && Matches(t[s[i]], pid))
  }

  /** No lost wakeup: a thread that waits is its process's registered waiter, and
      none of the children it waits for has exited. */
  ghost predicate Attended(t: Table, kids: Kids, thr: Threads, want: map<Tid, int>, x: Tid)
    requires x in thr
  {
    var p := thr[x].process;
    p in t && p in kids && t[p].waiter == x && x in want && NoMatch(t, kids[p], want[x])
  }

  /** Every thread of `p` that waits is attended to. */
  ghost predicate Attends(t: Table, kids: Kids, thr: Threads, want: map<Tid, int>, p: Addr)
  {
    forall x :: x in thr && Waiting(thr[x]) && thr[x].process == p ==> Attended(t, kids, thr, want, x)
  }

  ghost predicate Inv(t: Table, kids: Kids, thr: Threads, exited: map<nat, int>, reaped: set<nat>, nextPid: nat,
                      kernel: Addr)
  {
    && Family(t, kids, kernel) && !t[kernel].zombie && t[kernel].pid == 0 && 0 !in thr
    && Pids(t, kernel, nextPid) && Childless(t, kids) && History(t, exited, reaped, nextPid)
    && Alive(t, thr) && Waiters(t, thr)
  }

  // -------------------------------------------------------- a child is born

  function BornKids(kids: Kids, n: Addr, parent: Addr): Kids
  {
    kids[n := []][parent := [n] + if parent in kids then kids[parent] else []]
  }

  lemma BornInv(t: Table, kids: Kids, thr: Threads, exited: map<nat, int>, reaped: set<nat>, nextPid: nat, kernel: Addr,
                n: Addr, parent: Addr)
    requires n !in t && n != 0 && parent in t && !t[parent].zombie
    requires Inv(t, kids, thr, exited, reaped, nextPid, kernel)
    ensures Inv(Born(t, n, parent, nextPid), BornKids(kids, n, parent), thr, exited, reaped, nextPid + 1, kernel)
  {
    hide Family, Pids, Childless, History, Alive, Waiters;
    BornFamily(t, kids, kernel, n, parent, nextPid);
    FamilyIn(t, kids, kernel);
    BornAt(t, n, parent, nextPid);
    BornPids(t, kernel, nextPid, n, parent);
    BornRest(t, kids, thr, exited, reaped, nextPid, n, parent);
  }

  lemma FamilyIn(t: Table, kids: Kids, kernel: Addr)
    requires Family(t, kids, kernel)
    ensures kids.Keys == t.Keys && kernel in t && 0 !in t && kernel in kids
  {
    assert kernel in kids.Keys;
  }

  /** A birth adds one record and changes one link. */
  lemma BornAt(t: Table, n: Addr, parent: Addr, pid: nat)
    requires n !in t && parent in t
    ensures var t' := Born(t, n, parent, pid);
            && t'.Keys == t.Keys + {n} && t'[n].pid == pid && !t'[n].zombie && t'[n].waiter == 0
            && t'[n].parent == parent
            && forall x :: x in t ==> SameButLinks(t[x], t'[x]) && t'[x].parent == t[x].parent
  {
  }

  ghost predicate SameButLinks(a: Proc, b: Proc)
  {
    a.pid == b.pid && a.zombie == b.zombie && a.status == b.status && a.waiter == b.waiter
  }

  lemma BornPids(t: Table, kernel: Addr, nextPid: nat, n: Addr, parent: Addr)
    requires Pids(t, kernel, nextPid) && n !in t && parent in t
    ensures Pids(Born(t, n, parent, nextPid), kernel, nextPid + 1)
  {
    hide Born;
    BornAt(t, n, parent, nextPid);
    var t' := Born(t, n, parent, nextPid);
    forall c | c in t' ensures Older(t', kernel, c) {
      if c != n { assert c in t && Older(t, kernel, c) && SameButLinks(t[c], t'[c]); }
    }
    forall p, q | p in t' && q in t' && p != q ensures Differ(t', p, q) {
      if p != n && q != n { assert p in t && q in t && Differ(t, p, q); }
    }
    forall p | p in t' ensures t'[p].pid < nextPid + 1 {
      if p != n { assert p in t && SameButLinks(t[p], t'[p]); }
    }
  }

  lemma BornRest(t: Table, kids: Kids, thr: Threads, exited: map<nat, int>, reaped: set<nat>, nextPid: nat, n: Addr,
                 parent: Addr)
    requires Childless(t, kids) && History(t, exited, reaped, nextPid) && Alive(t, thr) && Waiters(t, thr)
    requires n !in t && parent in t && parent in kids && !t[parent].zombie && n !in kids
    ensures var t' := Born(t, n, parent, nextPid);
            && Childless(t', BornKids(kids, n, parent)) && History(t', exited, reaped, nextPid + 1)
            && Alive(t', thr) && Waiters(t', thr)
  {
    hide Born;
    BornAt(t, n, parent, nextPid);
    var t' := Born(t, n, parent, nextPid);
    forall p | p in t' ensures Recorded(t'[p], exited, reaped) {
      if p != n { assert Recorded(t[p], exited, reaped) && SameButLinks(t[p], t'[p]); }
    }
    forall x | x in exited ensures x < nextPid + 1 && (x in reaped || IsZombie(t', x)) {
      if x !in reaped {
        assert IsZombie(t, x);
        var p :| p in t && t[p].zombie && t[p].pid == x;
        assert SameButLinks(t[p], t'[p]) && p in t'.Keys;
      }
    }
  }

  /** A birth loses no waiter. */
  lemma BornAttends(t: Table, kids: Kids, thr: Threads, want: map<Tid, int>, n: Addr, parent: Addr, pid: nat, p: Addr)
    requires Attends(t, kids, thr, want, p) && n !in t && parent in t && parent in kids && n !in kids
    ensures Attends(Born(t, n, parent, pid), BornKids(kids, n, parent), thr, want, p)
  {
    hide Born;
    BornAt(t, n, parent, pid);
    var t' := Born(t, n, parent, pid);
    var kids' := BornKids(kids, n, parent);
    forall x | x in thr && Waiting(thr[x]) && thr[x].process == p ensures Attended(t', kids', thr, want, x) {
      assert Attended(t, kids, thr, want, x);
      assert p in t'.Keys && SameButLinks(t[p], t'[p]);
      forall i | 0 <= i < |kids'[p]|
        ensures kids'[p][i] in t' && !(t'[kids'[p][i]].zombie && Matches(t'[kids'[p][i]], want[x]))
      {
        var c := kids'[p][i];
        if c != n {
          assert c in kids[p];
          assert c in t && SameButLinks(t[c], t'[c]) && c in t'.Keys;
        } else {
          assert c in t'.Keys;
        }
      }
    }
  }

  // -------------------------------------------------------- a process exits

  /** What process_exit does to the records besides their links. */
  ghost predicate Exits(t: Table, t': Table, kernel: Addr, p: Addr, status: int)
    requires p in t
  {
    && t'.Keys == t.Keys
    && forall x :: x in t ==>
         Exited(t[x], t'[x], x == p, status, x == t[p].parent)
             && (t'[x].parent == t[x].parent || t'[x].parent == kernel)
  }

  ghost predicate Exited(a: Proc, b: Proc, self: bool, status: int, parent: bool)
  {
    && b.pid == a.pid && b.zombie == (self || a.zombie) && b.status == (if self then status else a.status)
    && b.waiter == if parent then 0 else a.waiter
  }

  /** What it does to the threads: those of `p` die, and the waiter `w` of its
      parent becomes ready. */
  ghost predicate Released(thr: Threads, thr': Threads, p: Addr, w: Tid)
  {
    thr'.Keys == thr.Keys && forall x :: x in thr ==> thr'[x] == After(thr[x], p, x == w)
  }

  function After(th: Thr, p: Addr, waiter: bool): Thr
  {
    if th.process == p then th.(state := R.Dead) else if waiter && Waiting(th) then th.(state := R.Ready) else th
  }

  /** The children of `p` now stand before the kernel's own, the last one first. */
  ghost predicate KidsLeft(kids: Kids, kids': Kids, kernel: Addr, p: Addr)
  {
    && kids'.Keys == kids.Keys && p in kids && kids'[p] == []
    && (kernel in kids ==> kids'[kernel] == Reversed(kids[p]) + kids[kernel])
    && forall q :: q in kids && q != p && q != kernel ==> kids'[q] == kids[q]
  }

  function Reversed(s: seq<Addr>): (r: seq<Addr>)
    ensures |r| == |s| && forall i :: 0 <= i < |s| ==> r[i] == s[|s| - 1 - i]
  {
    seq(|s|, i requires 0 <= i < |s| => s[|s| - 1 - i])
  }

  lemma ExitInv(t: Table, kids: Kids, thr: Threads, exited: map<nat, int>, reaped: set<nat>, nextPid: nat, kernel: Addr,
                p: Addr, status: int, t': Table, kids': Kids, thr': Threads)
    requires p in t && p != kernel && !t[p].zombie
    requires Family(t', kids', kernel) && Exits(t, t', kernel, p, status) && KidsLeft(kids, kids', kernel, p)
    requires Released(thr, thr', p, if t[p].parent in t then t[t[p].parent].waiter else 0)
    requires Inv(t, kids, thr, exited, reaped, nextPid, kernel)
    ensures Inv(t', kids', thr', exited[t[p].pid := status], reaped, nextPid, kernel)
  {
    hide Family, Pids, Childless, History, Alive, Waiters, Released, Exits, KidsLeft;
    FamilyIn(t, kids, kernel);
    FamilyIn(t', kids', kernel);
    Parent(t, kids, kernel, p);
    ExitKernel(t, t', thr, thr', kernel, p, status);
    ExitPids(t, t', kernel, nextPid, p, status);
    ExitChildless(t, t', kids, kids', kernel, p, status);
    ExitHistory(t, t', exited, reaped, nextPid, kernel, p, status);
    LiveParent(t, kids, kernel, p);
    ExitWaiters(t, t', thr, thr', kernel, p, status);
  }

  lemma LiveParent(t: Table, kids: Kids, kernel: Addr, p: Addr)
    requires Family(t, kids, kernel) && Childless(t, kids) && p in t && p != kernel
    ensures t[p].parent in t && !t[t[p].parent].zombie
  {
    hide Family;
    Parent(t, kids, kernel, p);
  }

  lemma ExitKernel(t: Table, t': Table, thr: Threads, thr': Threads, kernel: Addr, p: Addr, status: int)
    requires p in t && p != kernel && kernel in t && Exits(t, t', kernel, p, status) && t[p].parent in t
    requires 0 !in thr && Released(thr, thr', p, t[t[p].parent].waiter)
    ensures kernel in t' && t'[kernel].zombie == t[kernel].zombie && t'[kernel].pid == t[kernel].pid && 0 !in thr'
  {
    assert kernel in t'.Keys;
    assert Exited(t[kernel], t'[kernel], false, status, kernel == t[p].parent);
    assert 0 !in thr'.Keys;
  }

  lemma ExitPids(t: Table, t': Table, kernel: Addr, nextPid: nat, p: Addr, status: int)
    requires Pids(t, kernel, nextPid) && p in t && kernel in t && t[kernel].pid == 0 && Exits(t, t', kernel, p, status)
    ensures Pids(t', kernel, nextPid)
  {
    forall x | x in t'
      ensures x in t && t'[x].pid == t[x].pid
    {
      assert x in t.Keys && Exited(t[x], t'[x], x == p, status, x == t[p].parent);
    }
    forall c | c in t' ensures Older(t', kernel, c) {
      assert Older(t, kernel, c);
      assert t'[c].parent in t.Keys || c == kernel;
      if c != kernel { assert Differ(t, c, kernel); }
    }
    forall a, b | a in t' && b in t' && a != b ensures Differ(t', a, b) { assert Differ(t, a, b); }
  }

  lemma ExitChildless(t: Table, t': Table, kids: Kids, kids': Kids, kernel: Addr, p: Addr, status: int)
    requires Childless(t, kids) && p in t && kernel in t && !t[kernel].zombie && p != kernel
    requires Exits(t, t', kernel, p, status) && KidsLeft(kids, kids', kernel, p)
    ensures Childless(t', kids')
  {
    forall x | x in t' && t'[x].zombie ensures x in kids' && kids'[x] == [] {
      assert x in t.Keys && Exited(t[x], t'[x], x == p, status, x == t[p].parent);
      if x != p { assert x in kids.Keys; } else { assert p in kids.Keys; }
    }
  }

  lemma ExitHistory(t: Table, t': Table, exited: map<nat, int>, reaped: set<nat>, nextPid: nat, kernel: Addr, p: Addr,
                    status: int)
    requires History(t, exited, reaped, nextPid) && Pids(t, kernel, nextPid) && p in t && !t[p].zombie
    requires Exits(t, t', kernel, p, status)
    ensures History(t', exited[t[p].pid := status], reaped, nextPid)
  {
    var exited' := exited[t[p].pid := status];
    assert Recorded(t[p], exited, reaped) && p in t'.Keys;
    assert Exited(t[p], t'[p], true, status, p == t[p].parent);
    forall x | x in t' ensures Recorded(t'[x], exited', reaped) {
      assert x in t.Keys && Exited(t[x], t'[x], x == p, status, x == t[p].parent) && Recorded(t[x], exited, reaped);
      if x != p { assert Differ(t, x, p); }
    }
    forall y | y in exited' ensures y < nextPid && (y in reaped || IsZombie(t', y)) {
      if y != t[p].pid && y !in reaped {
        assert IsZombie(t, y);
        var x :| x in t && t[x].zombie && t[x].pid == y;
        assert x in t'.Keys && Exited(t[x], t'[x], x == p, status, x == t[p].parent);
      }
    }
  }

  lemma ExitWaiters(t: Table, t': Table, thr: Threads, thr': Threads, kernel: Addr, p: Addr, status: int)
    requires Alive(t, thr) && Waiters(t, thr) && p in t && Exits(t, t', kernel, p, status)
    requires t[p].parent in t && Released(thr, thr', p, t[t[p].parent].waiter)
    requires !t[t[p].parent].zombie
    ensures Alive(t', thr') && Waiters(t', thr')
  {
    var q := t[p].parent;
    forall x | x in thr' && thr'[x].state != R.Dead ensures thr'[x].process in t' && !t'[thr'[x].process].zombie {
      assert x in thr.Keys && thr'[x] == After(thr[x], p, x == t[q].waiter);
      var r := thr[x].process;
      assert r in t && r in t'.Keys && Exited(t[r], t'[r], r == p, status, r == q);
    }
    forall r | r in t' && !t'[r].zombie && t'[r].waiter != 0
      ensures t'[r].waiter in thr' && thr'[t'[r].waiter] == Thr(R.WaitingChild, r)
    {
      assert r in t.Keys && Exited(t[r], t'[r], r == p, status, r == q);
      var x := t[r].waiter;
      assert x in thr && thr[x] == Thr(R.WaitingChild, r);
      assert x in thr'.Keys && thr'[x] == After(thr[x], p, x == t[q].waiter);
    }
  }

  /** The heart of the protocol: the exit of a child wakes the one thread of its parent
      that could be waiting for it, so no process but the kernel's loses a waiter. */
  lemma ExitAttends(t: Table, t': Table, kids: Kids, kids': Kids, thr: Threads, thr': Threads, want: map<Tid, int>,
                    kernel: Addr, p: Addr, status: int, r: Addr)
    requires Attends(t, kids, thr, want, r) && Family(t, kids, kernel) && p in t && p != kernel && r != kernel
    requires Exits(t, t', kernel, p, status) && KidsLeft(kids, kids', kernel, p)
    requires t[p].parent in t && Released(thr, thr', p, t[t[p].parent].waiter)
    ensures Attends(t', kids', thr', want, r)
  {
    hide Family;
    forall x | x in thr' && Waiting(thr'[x]) && thr'[x].process == r ensures Attended(t', kids', thr', want, x) {
      ExitAttended(t, t', kids, kids', thr, thr', want, kernel, p, status, x);
    }
  }

  lemma ExitAttended(t: Table, t': Table, kids: Kids, kids': Kids, thr: Threads, thr': Threads, want: map<Tid, int>,
                     kernel: Addr, p: Addr, status: int, x: Tid)
    requires x in thr' && Waiting(thr'[x]) && thr'[x].process != kernel
    requires Attends(t, kids, thr, want, thr'[x].process) && Family(t, kids, kernel) && p in t && p != kernel
    requires Exits(t, t', kernel, p, status) && KidsLeft(kids, kids', kernel, p)
    requires t[p].parent in t && Released(thr, thr', p, t[t[p].parent].waiter)
    ensures Attended(t', kids', thr', want, x)
  {
    hide Family;
    var q := t[p].parent;
    assert x in thr.Keys && thr'[x] == After(thr[x], p, x == t[q].waiter);
    assert Attended(t, kids, thr, want, x);
    var r := thr[x].process;
    assert r != p && r != q && r in t'.Keys && r in kids'.Keys;
    assert Exited(t[r], t'[r], false, status, false);
    KidsOf(t, kids, kernel, r);
    NotMine(t, kids[r], r, p);
    assert kids'[r] == kids[r];
    forall i | 0 <= i < |kids[r]|
      ensures kids[r][i] in t' && !(t'[kids[r][i]].zombie && Matches(t'[kids[r][i]], want[x]))
    {
      var c := kids[r][i];
      assert c in t && c != p && c in t'.Keys && Exited(t[c], t'[c], false, status, c == q);
    }
  }

  /** A thread of the kernel's process waits for a zombie among the children of `p`. */
  ghost predicate WaitsForOrphan(t: Table, kids: Kids, thr: Threads, want: map<Tid, int>, kernel: Addr, p: Addr)
    requires p in kids
  {
    exists x :: x in thr && Waiting(thr[x]) && thr[x].process == kernel && !(x in want && NoMatch(t, kids[p], want[x]))
  }

  /** Orphans reach the kernel's process without a wakeup. A kernel thread that waits
      stays attended to exactly when the process that exits is a child of the kernel's
      process, or leaves no zombie that the thread waits for. */
  lemma OrphansIff(t: Table, t': Table, kids: Kids, kids': Kids, thr: Threads, thr': Threads, want: map<Tid, int>,
                   kernel: Addr, p: Addr, status: int)
    requires Family(t, kids, kernel) && Family(t', kids', kernel) && p in t && p in kids && p != kernel && p !in kids[p]
    requires Exits(t, t', kernel, p, status) && KidsLeft(kids, kids', kernel, p) && Waiters(t, thr) && 0 !in thr
    requires t[p].parent in t && !t[t[p].parent].zombie && Released(thr, thr', p, t[t[p].parent].waiter)
    requires Attends(t, kids, thr, want, kernel)
    ensures Attends(t', kids', thr', want, kernel) <==>
              t[p].parent == kernel || !WaitsForOrphan(t, kids, thr, want, kernel, p)
  {
    hide Family, Exits, KidsLeft, NoMatch, Waiters;
    var q := t[p].parent;
    FamilyIn(t, kids, kernel);
    forall x | x in thr && Waiting(thr[x]) && thr[x].process == kernel
      ensures x in thr' && Attended(t, kids, thr, want, x) && (q == kernel ==> !Waiting(thr'[x]))
      ensures q != kernel ==>
        thr'[x] == thr[x] && (Attended(t', kids', thr', want, x) <==> NoMatch(t, kids[p], want[x]))
    {
      assert x in thr'.Keys && thr'[x] == After(thr[x], p, x == t[q].waiter);
      if q != kernel {
        WaiterProcess(t, thr, q);
        OrphanMatch(t, t', kids, kids', kernel, p, status, want[x]);
      }
    }
    assert forall x :: x in thr' ==> x in thr.Keys && thr'[x] == After(thr[x], p, x == t[q].waiter);
  }

  lemma WaiterProcess(t: Table, thr: Threads, q: Addr)
    requires Waiters(t, thr) && q in t && !t[q].zombie
    ensures t[q].waiter != 0 ==> t[q].waiter in thr && thr[t[q].waiter].process == q
  {
  }

  lemma OrphanMatch(t: Table, t': Table, kids: Kids, kids': Kids, kernel: Addr, p: Addr, status: int, pid: int)
    requires Family(t, kids, kernel) && Family(t', kids', kernel) && p in t && p in kids && p != kernel && p !in kids[p]
    requires t[p].parent in t
    requires Exits(t, t', kernel, p, status) && KidsLeft(kids, kids', kernel, p) && t[p].parent != kernel
    ensures kernel in t && kernel in t' && kernel in kids && kernel in kids' && t'[kernel].waiter == t[kernel].waiter
    ensures NoMatch(t', kids'[kernel], pid) <==> NoMatch(t, kids[kernel], pid) && NoMatch(t, kids[p], pid)
  {
    hide Family, Links;
    FamilyIn(t, kids, kernel);
    FamilyIn(t', kids', kernel);
    KidsOf(t, kids, kernel, kernel);
    KidsOf(t, kids, kernel, p);
    KidsOf(t', kids', kernel, kernel);
    assert kernel in t && Exited(t[kernel], t'[kernel], false, status, false);
    MineIn(t, kids[kernel], kernel);
    MineIn(t, kids[p], p);
    MineIn(t', kids'[kernel], kernel);
    forall c | c in kids[kernel] || c in kids[p]
      ensures c in kids'[kernel] && c in t && c in t' && SameFate(t[c], t'[c])
    {
      Inherited(t, t', kids, kids', kernel, p, status, c);
    }
    forall c | c in kids'[kernel]
      ensures c in kids[kernel] || c in kids[p]
    {
      Origin(t, t', kids, kids', kernel, p, status, c);
    }
    Matching(t, t', kids[kernel], kids[p], kids'[kernel], pid);
  }

  ghost predicate SameFate(a: Proc, b: Proc)
  {
    b.pid == a.pid && b.zombie == a.zombie
  }

  lemma Matching(t: Table, t': Table, a: seq<Addr>, b: seq<Addr>, s: seq<Addr>, pid: int)
    requires forall c :: c in a || c in b ==> c in s && c in t && c in t' && SameFate(t[c], t'[c])
    requires forall c :: c in s ==> c in a || c in b
    ensures NoMatch(t', s, pid) <==> NoMatch(t, a, pid) && NoMatch(t, b, pid)
  {
    if NoMatch(t', s, pid) {
      forall i | 0 <= i < |a|
        ensures !(t[a[i]].zombie && Matches(t[a[i]], pid))
      {
        assert a[i] in a;
        var j :| 0 <= j < |s| && s[j] == a[i];
      }
      forall i | 0 <= i < |b|
        ensures !(t[b[i]].zombie && Matches(t[b[i]], pid))
      {
        assert b[i] in b;
        var j :| 0 <= j < |s| && s[j] == b[i];
      }
    }
    if NoMatch(t, a, pid) && NoMatch(t, b, pid) {
      forall i | 0 <= i < |s| ensures s[i] in t' && !(t'[s[i]].zombie && Matches(t'[s[i]], pid)) {
        assert s[i] in s;
        if s[i] in a { var j :| 0 <= j < |a| && a[j] == s[i]; } else { var j :| 0 <= j < |b| && b[j] == s[i]; }
      }
    }
  }

  /** Children of the kernel's process stay its children, and orphans become so. */
  lemma Inherited(t: Table, t': Table, kids: Kids, kids': Kids, kernel: Addr, p: Addr, status: int, c: Addr)
    requires Family(t, kids, kernel) && Family(t', kids', kernel) && p in t && p in kids && p != kernel && p !in kids[p]
    requires kernel in kids && kernel in kids'
    requires Exits(t, t', kernel, p, status) && KidsLeft(kids, kids', kernel, p) && t[p].parent != kernel
    requires c in kids[kernel] || c in kids[p]
    ensures c in kids'[kernel] && c in t && c in t' && SameFate(t[c], t'[c])
  {
    hide Family, Links;
    KidsOf(t, kids, kernel, kernel);
    KidsOf(t, kids, kernel, p);
    MineIn(t, kids[kernel], kernel);
    MineIn(t, kids[p], p);
    FamilyIn(t, kids, kernel);
    KernelParent(t, kids, kernel);
    assert c in t && c != p && c != kernel && c in t'.Keys;
    assert Exited(t[c], t'[c], false, status, c == t[p].parent);
    Parent(t', kids', kernel, c);
    assert t'[c].parent != p;
  }

  lemma KernelParent(t: Table, kids: Kids, kernel: Addr)
    requires Family(t, kids, kernel)
    ensures kernel in t && t[kernel].parent == 0 && 0 !in t
  {
  }

  lemma Origin(t: Table, t': Table, kids: Kids, kids': Kids, kernel: Addr, p: Addr, status: int, c: Addr)
    requires Family(t, kids, kernel) && Family(t', kids', kernel) && p in t && p in kids && p != kernel
    requires kernel in kids && kernel in kids'
    requires Exits(t, t', kernel, p, status) && KidsLeft(kids, kids', kernel, p) && c in kids'[kernel]
    ensures c in kids[kernel] || c in kids[p]
  {
    hide Family, Links;
    KidsOf(t', kids', kernel, kernel);
    MineIn(t', kids'[kernel], kernel);
    KernelParent(t', kids', kernel);
    assert c in t'.Keys && c in t && c != kernel;
    Parent(t, kids, kernel, c);
    var q := t[c].parent;
    if q != kernel && q != p {
      assert q in kids'.Keys;
      KidsOf(t', kids', kernel, q);
      NotMine(t', kids'[q], q, c);
    }
  }

  // -------------------------------------------------- a process is destroyed

  ghost predicate Gone(t: Table, t': Table, z: Addr)
  {
    && t'.Keys == t.Keys - {z}
    && forall x :: x in t && x != z ==> SameButLinks(t[x], t'[x]) && t'[x].parent == t[x].parent
  }

  ghost predicate Within(s: seq<Addr>, u: seq<Addr>)
  {
    |s| <= |u| && forall x :: x in s ==> x in u
  }

  ghost predicate KidsGone(kids: Kids, kids': Kids, z: Addr)
  {
    kids'.Keys == kids.Keys - {z} && forall q :: q in kids && q != z ==> Within(kids'[q], kids[q])
  }

  lemma GoneInv(t: Table, kids: Kids, thr: Threads, exited: map<nat, int>, reaped: set<nat>, nextPid: nat, kernel: Addr,
                z: Addr, t': Table, kids': Kids)
    requires z in t && z != kernel && z in kids && kids[z] == []
    requires forall x :: x in thr && thr[x].process == z ==> thr[x].state == R.Dead
    requires Family(t', kids', kernel) && Gone(t, t', z) && KidsGone(kids, kids', z)
    requires Inv(t, kids, thr, exited, reaped, nextPid, kernel)
    ensures Inv(t', kids', thr, exited, if t[z].zombie then reaped + {t[z].pid} else reaped, nextPid, kernel)
  {
    hide Family, Pids, Childless, History, Alive, Waiters, KidsGone;
    FamilyIn(t, kids, kernel);
    FamilyIn(t', kids', kernel);
    assert kernel in t.Keys && SameButLinks(t[kernel], t'[kernel]);
    GonePids(t, t', kids, kernel, nextPid, z);
    GoneRest(t, t', kids, kids', thr, z);
    GoneHistory(t, t', exited, reaped, nextPid, kernel, z);
  }

  lemma GonePids(t: Table, t': Table, kids: Kids, kernel: Addr, nextPid: nat, z: Addr)
    requires Pids(t, kernel, nextPid) && Family(t, kids, kernel) && Gone(t, t', z) && z in kids && kids[z] == []
    ensures Pids(t', kernel, nextPid)
  {
    hide Family;
    forall x | x in t'
      ensures x in t && x != z && t'[x].pid == t[x].pid
    {
      assert x in t'.Keys; assert SameButLinks(t[x], t'[x]);
    }
    forall c | c in t' ensures Older(t', kernel, c) {
      assert Older(t, kernel, c);
      if c != kernel {
        ChildlessParent(t, kids, kernel, z, c);
        assert t[c].parent in t'.Keys;
      }
    }
    forall a, b | a in t' && b in t' && a != b ensures Differ(t', a, b) { assert Differ(t, a, b); }
  }

  lemma GoneRest(t: Table, t': Table, kids: Kids, kids': Kids, thr: Threads, z: Addr)
    requires Childless(t, kids) && Alive(t, thr) && Waiters(t, thr) && Gone(t, t', z) && KidsGone(kids, kids', z)
    requires forall x :: x in thr && thr[x].process == z ==> thr[x].state == R.Dead
    ensures Childless(t', kids') && Alive(t', thr) && Waiters(t', thr)
  {
    forall x | x in t' ensures x in t && x != z && SameButLinks(t[x], t'[x]) { assert x in t'.Keys; }
    forall p | p in t' && t'[p].zombie ensures p in kids' && kids'[p] == [] {
      assert p in kids && kids[p] == [] && p in kids'.Keys && Within(kids'[p], kids[p]);
    }
    forall x | x in thr && thr[x].state != R.Dead ensures thr[x].process in t' && !t'[thr[x].process].zombie {
      assert thr[x].process in t'.Keys;
    }
  }

  /** A zombie is reaped once: its pid was not reaped before, and no process has
      that pid again. */
  lemma GoneHistory(t: Table, t': Table, exited: map<nat, int>, reaped: set<nat>, nextPid: nat, kernel: Addr, z: Addr)
    requires History(t, exited, reaped, nextPid) && Pids(t, kernel, nextPid) && z in t && Gone(t, t', z)
    ensures History(t', exited, if t[z].zombie then reaped + {t[z].pid} else reaped, nextPid)
  {
    var reaped' := if t[z].zombie then reaped + {t[z].pid} else reaped;
    assert Recorded(t[z], exited, reaped);
    forall x | x in t' ensures Recorded(t'[x], exited, reaped') {
      assert x in t'.Keys;
      assert SameButLinks(t[x], t'[x]) && Recorded(t[x], exited, reaped) && Differ(t, x, z);
    }
    forall y | y in exited ensures y < nextPid && (y in reaped' || IsZombie(t', y)) {
      if y !in reaped' {
        assert IsZombie(t, y);
        var x :| x in t && t[x].zombie && t[x].pid == y;
        assert x in t'.Keys && SameButLinks(t[x], t'[x]);
      }
    }
  }

  lemma GoneAttends(t: Table, t': Table, kids: Kids, kids': Kids, thr: Threads, want: map<Tid, int>, kernel: Addr,
                    z: Addr, p: Addr)
    requires Attends(t, kids, thr, want, p) && Gone(t, t', z) && KidsGone(kids, kids', z) && Family(t', kids', kernel)
    requires forall x :: x in thr && thr[x].process == z ==> thr[x].state == R.Dead
    ensures Attends(t', kids', thr, want, p)
  {
    hide Family;
    forall x | x in thr && Waiting(thr[x]) && thr[x].process == p ensures Attended(t', kids', thr, want, x) {
      GoneAttended(t, t', kids, kids', thr, want, kernel, z, x);
    }
  }

  lemma GoneAttended(t: Table, t': Table, kids: Kids, kids': Kids, thr: Threads, want: map<Tid, int>, kernel: Addr,
                     z: Addr, x: Tid)
    requires x in thr && Attended(t, kids, thr, want, x) && Gone(t, t', z) && KidsGone(kids, kids', z)
    requires Family(t', kids', kernel)
    requires thr[x].process != z
    ensures Attended(t', kids', thr, want, x)
  {
    hide Family;
    var p := thr[x].process;
    assert p in t'.Keys && p in kids'.Keys && SameButLinks(t[p], t'[p]);
    KidsOf(t', kids', kernel, p);
    MineIn(t', kids'[p], p);
    forall i | 0 <= i < |kids'[p]| ensures !(t'[kids'[p][i]].zombie && Matches(t'[kids'[p][i]], want[x])) {
      var c := kids'[p][i];
      assert Within(kids'[p], kids[p]) && c in kids'[p] && c in t'.Keys && c in kids[p];
      assert SameButLinks(t[c], t'[c]);
    }
  }

  // ---------------------------------------------------------- thread steps

  lemma BlockInv(t: Table, kids: Kids, thr: Threads, exited: map<nat, int>, reaped: set<nat>, nextPid: nat,
                 kernel: Addr, x: Tid, pid: int)
    requires x in thr && thr[x].process in t && !t[thr[x].process].zombie && !Waiting(thr[x])
    requires Inv(t, kids, thr, exited, reaped, nextPid, kernel)
    ensures var p := thr[x].process;
            Inv(t[p := t[p].(waiter := x)], kids, thr[x := thr[x].(state := R.WaitingChild)], exited, reaped, nextPid,
                kernel)
  {
    hide Family, Pids, Childless, History, Alive, Waiters, NoMatch;
    FamilyIn(t, kids, kernel);
    var p := thr[x].process;
    var t' := t[p := t[p].(waiter := x)];
    SameFamily(t, t', kids, kernel);
    SamePids(t, t', kids, kernel, exited, reaped, nextPid);
    BlockWaiters(t, kids, thr, kernel, x);
  }

  lemma SamePids(t: Table, t': Table, kids: Kids, kernel: Addr, exited: map<nat, int>, reaped: set<nat>, nextPid: nat)
    requires Pids(t, kernel, nextPid) && Childless(t, kids) && History(t, exited, reaped, nextPid)
    requires t'.Keys == t.Keys && forall x :: x in t ==> t'[x] == t[x].(waiter := t'[x].waiter)
    ensures Pids(t', kernel, nextPid) && Childless(t', kids) && History(t', exited, reaped, nextPid)
  {
    forall x | x in t' ensures x in t && t'[x] == t[x].(waiter := t'[x].waiter) && Recorded(t'[x], exited, reaped) {
      assert x in t.Keys && Recorded(t[x], exited, reaped);
    }
    forall c | c in t' ensures Older(t', kernel, c) {
      assert Older(t, kernel, c);
      assert c != kernel ==> t[c].parent in t'.Keys;
    }
    forall a, b | a in t' && b in t' && a != b ensures Differ(t', a, b) { assert Differ(t, a, b); }
    forall y | y in exited ensures y in reaped || IsZombie(t', y) {
      if y !in reaped {
        assert IsZombie(t, y);
        var x :| x in t && t[x].zombie && t[x].pid == y;
        assert x in t'.Keys;
      }
    }
  }

  lemma BlockWaiters(t: Table, kids: Kids, thr: Threads, kernel: Addr, x: Tid)
    requires Alive(t, thr) && Waiters(t, thr) && x in thr && thr[x].process in t && !t[thr[x].process].zombie
    requires !Waiting(thr[x]) && 0 !in thr
    ensures var p := thr[x].process;
            var t', thr' := t[p := t[p].(waiter := x)], thr[x := thr[x].(state := R.WaitingChild)];
            Alive(t', thr') && Waiters(t', thr') && 0 !in thr'
  {
  }

  /** A second thread that waits in the same process takes the place of the first,
      whose wakeup is then lost. Waiting keeps every waiter of the process attended to
      exactly when no other thread of the process waits; other processes keep theirs. */
  lemma BlockKeepsIff(t: Table, kids: Kids, thr: Threads, want: map<Tid, int>, x: Tid, pid: int, q: Addr)
    requires x in thr && thr[x].process in t && thr[x].process in kids && !Waiting(thr[x])
    requires NoMatch(t, kids[thr[x].process], pid) && Attends(t, kids, thr, want, q)
    ensures var p := thr[x].process;
            Attends(t[p := t[p].(waiter := x)], kids, thr[x := thr[x].(state := R.WaitingChild)], want[x := pid], q)
            <==> q != p || !OtherWaits(thr, p)
  {
    var p := thr[x].process;
    var t', thr', want' := t[p := t[p].(waiter := x)], thr[x := thr[x].(state := R.WaitingChild)], want[x := pid];
    if q == p && OtherWaits(thr, p) {
      var y :| y in thr && Waiting(thr[y]) && thr[y].process == p;
      assert thr'[y] == thr[y] && !Attended(t', kids, thr', want', y);
    } else {
      forall y | y in thr' && Waiting(thr'[y]) && thr'[y].process == q ensures Attended(t', kids, thr', want', y) {
        if y != x { assert Attended(t, kids, thr, want, y); }
      }
    }
  }

  predicate OtherWaits(thr: Threads, p: Addr)
  {
    exists y :: y in thr && Waiting(thr[y]) && thr[y].process == p
  }

  /** A thread step that neither starts nor ends a wait for a child. */
  ghost predicate Harmless(t: Table, thr: Threads, thr': Threads)
  {
    && (forall x :: x in thr && Waiting(thr[x]) ==> x in thr' && thr'[x] == thr[x])
    && (forall x :: x in thr' ==>
         x != 0 && (thr'[x].state != R.Dead ==> thr'[x].process in t && !t[thr'[x].process].zombie))
    && (forall x :: x in thr' && Waiting(thr'[x]) ==> x in thr && thr[x] == thr'[x])
  }

  lemma HarmlessInv(t: Table, kids: Kids, thr: Threads, thr': Threads, exited: map<nat, int>, reaped: set<nat>,
                    nextPid: nat, kernel: Addr)
    requires Harmless(t, thr, thr')
    requires Inv(t, kids, thr, exited, reaped, nextPid, kernel)
    ensures Inv(t, kids, thr', exited, reaped, nextPid, kernel)
  {
    hide Family, Pids, Childless, History;
  }

  lemma HarmlessAttends(t: Table, kids: Kids, thr: Threads, thr': Threads, want: map<Tid, int>, p: Addr)
    requires Harmless(t, thr, thr') && Attends(t, kids, thr, want, p)
    ensures Attends(t, kids, thr', want, p)
  {
    forall x | x in thr' && Waiting(thr'[x]) && thr'[x].process == p ensures Attended(t, kids, thr', want, x) {
      assert Attended(t, kids, thr, want, x);
    }
  }

  // ---------------------------------------------------------------- the kernel

  /** Child `i` of the list `s` is the first that matches and has exited; it is gone
      and `r` carries its pid and status. */
  ghost predicate ReapedAt(t: Table, t': Table, s: seq<Addr>, i: nat, pid: int, r: WaitResult)
    requires i < |s|
  {
    && s[i] in t && t[s[i]].zombie && Matches(t[s[i]], pid) && NoMatch(t, s[..i], pid)
    && r == Reaped(t[s[i]].pid, t[s[i]].status) && Gone(t, t', s[i])
  }

  /** What sys_waitpid by thread `x` answers and does. */
  ghost predicate WaitDid(t: Table, kids: Kids, thr: Threads, x: Tid, pid: int, bad: bool, r: WaitResult, t': Table,
                          kids': Kids, thr': Threads)
    requires x in thr && thr[x].process in t && thr[x].process in kids
  {
    var p := thr[x].process;
    var s := kids[p];
    match r
    case Einval => pid != -1 && pid <= 0 && t' == t && kids' == kids && thr' == thr
    case Efault => (pid == -1 || pid > 0) && bad && t' == t && kids' == kids && thr' == thr
    case Echild =>
      && (pid == -1 || pid > 0) && !bad && t' == t && kids' == kids && thr' == thr
      && forall j :: 0 <= j < |s| ==> !(s[j] in t && Matches(t[s[j]], pid))
    case Reaped(_, _) =>
      && (pid == -1 || pid > 0) && !bad && thr' == thr
      && exists i: nat :: i < |s| && ReapedAt(t, t', s, i, pid, r) && kids' == kids[p := Cut(s, i)] - {s[i]}
    case Blocks =>
      && (pid == -1 || pid > 0) && !bad && kids' == kids && NoMatch(t, s, pid)
      && t' == t[p := t[p].(waiter := x)] && thr' == thr[x := thr[x].(state := R.WaitingChild)]
      && exists j :: 0 <= j < |s| && s[j] in t && Matches(t[s[j]], pid)
  }

  datatype WaitResult = Einval | Efault | Echild | Reaped(pid: nat, status: int) | Blocks

  class Kernel {
    const kernel: Addr
    var procs: Table
    var threads: Threads
    var nextPid: nat
    ghost var kids: Kids
    ghost var want: map<Tid, int>
    ghost var exited: map<nat, int>
    ghost var reaped: set<nat>

    ghost predicate Valid()
      reads this
    {
      Inv(procs, kids, threads, exited, reaped, nextPid, kernel)
    }

    ghost function Seen(): View
      reads this
    {
      View(procs, kids, threads, nextPid, want)
    }

    /** process_init and thread_init: one process, one thread. */
    constructor (k: Addr, main: Tid)
      requires k != 0 && main != 0
      ensures Valid() && kernel == k && reaped == {} && exited == map[]
      ensures Seen() == AtBoot(k, main)
    {
      kernel := k;
      procs := map[k := Proc(0, false, 0, 0, 0, 0, 0)];
      threads := map[main := Thr(R.Running, k)];
      nextPid := 1;
      kids := map[k := []];
      want := map[];
      exited := map[];
      reaped := {};
      new;
      assert Links(procs, [], k);
    }

    /** process_create by thread `x`. */
    method Spawn(x: Tid, n: Addr)
      requires Valid() && x in threads && threads[x].state != R.Dead && n !in procs && n != 0
      modifies this`procs, this`nextPid, this`kids
      ensures Valid() && nextPid == old(nextPid) + 1 && old(threads[x].process) in old(procs)
      ensures procs == Born(old(procs), n, old(threads[x].process), old(nextPid))
      ensures kids == BornKids(old(kids), n, old(threads[x].process))
      ensures n in procs && procs[n].pid == old(nextPid) && procs[n].parent == old(threads[x].process)
      ensures !procs[n].zombie && procs[n].waiter == 0 && procs.Keys == old(procs).Keys + {n}
      ensures forall q :: q in old(procs) ==>
                && q in procs && procs[q].pid == old(procs)[q].pid
                && procs[q].parent == old(procs)[q].parent && procs[q].zombie == old(procs)[q].zombie
    {
      hide Family, Pids, Childless, History, Waiters;
      var parent := threads[x].process;
      BornInv(procs, kids, threads, exited, reaped, nextPid, kernel, n, parent);
      procs := procs[n := Proc(nextPid, false, parent, 0, procs[parent].childrenHead, 0, 0)];
      procs := procs[parent := procs[parent].(childrenHead := n)];
      kids := BornKids(kids, n, parent);
      nextPid := nextPid + 1;
    }

    /** A thread is created, ready, for a process that has not exited. */
    method AddThread(x: Tid, p: Addr)
      requires Valid() && x !in threads && x != 0 && p in procs && !procs[p].zombie
      modifies this`threads
      ensures Valid() && threads == old(threads)[x := Thr(R.Ready, p)] && Harmless(procs, old(threads), threads)
    {
      hide Family, Pids, Childless, History, Waiters;
      ghost var th0 := threads;
      threads := threads[x := Thr(R.Ready, p)];
      HarmlessInv(procs, kids, th0, threads, exited, reaped, nextPid, kernel);
    }

    /** The scheduler, the terminal or thread_exit changes the state of a thread
        that does not wait for a child. */
    method SwitchThread(x: Tid, s: R.State)
      requires Valid() && x in threads && threads[x].state != R.Dead && !Waiting(threads[x]) && s != R.WaitingChild
      modifies this`threads
      ensures Valid() && threads == old(threads)[x := old(threads)[x].(state := s)]
      ensures Harmless(procs, old(threads), threads)
    {
      hide Family, Pids, Childless, History, Waiters;
      ghost var th0 := threads;
      threads := threads[x := threads[x].(state := s)];
      HarmlessInv(procs, kids, th0, threads, exited, reaped, nextPid, kernel);
    }

    /** The reaper frees a dead thread. */
    method DropThread(x: Tid)
      requires Valid() && x in threads && threads[x].state == R.Dead
      modifies this`threads
      ensures Valid() && threads == old(threads) - {x} && Harmless(procs, old(threads), threads)
    {
      hide Family, Pids, Childless, History, Waiters;
      ghost var th0 := threads;
      threads := threads - {x};
      HarmlessInv(procs, kids, th0, threads, exited, reaped, nextPid, kernel);
    }

    /** process_reparent_children to the kernel's process: links change, nothing
        else does, and the list of `p` ends up empty. */
    method Reparent(p: Addr)
      requires Family(procs, kids, kernel) && p in procs && p != kernel && p in kids && p !in kids[p]
      modifies this`procs, this`kids
      ensures Family(procs, kids, kernel) && KidsLeft(old(kids), kids, kernel, p)
      ensures Relinked(old(procs), procs, kernel) && p in procs && procs[p].parent == old(procs)[p].parent
    {
      hide Family, Relinked;
      ghost var t0, k0, s0 := procs, kids, kids[p];
      KidsOf(procs, kids, kernel, p);
      FamilyIn(procs, kids, kernel);
      RelinkedRefl(t0, kernel);
      var child := procs[p].childrenHead;
      SameHead(procs, p);
      assert s0[0..] == s0;
      ghost var j := 0;
      while child != 0
        invariant 0 <= j <= |s0| && p in procs && kernel in procs && p in kids && kids[p] == s0[j..]
        invariant child == NextOf(kids[p], -1)
        invariant Family(Adjusted(procs, p, child), kids, kernel) && Relinked(t0, procs, kernel)
        invariant procs[p].parent == t0[p].parent
        invariant kids.Keys == k0.Keys && forall q :: q in k0 && q != p && q != kernel ==> kids[q] == k0[q]
        invariant kernel in k0 ==> kernel in kids && kids[kernel] == Reversed(s0[..j]) + k0[kernel]
        decreases |s0| - j
      {
        assert Reversed(s0[..j + 1]) == [s0[j]] + Reversed(s0[..j]);
        ghost var t1 := procs;
        child := MoveChild(p, child);
        RelinkedTrans(t0, t1, procs, kernel);
        j := j + 1;
      }
      EndOfList(Adjusted(procs, p, 0), kids, kernel, p);
      ghost var t2 := procs;
      procs := procs[p := procs[p].(childrenHead := 0)];
      RelinkedHead(t0, t2, kernel, p);
    }

    /** One turn: the first child left moves to the front of the kernel's list. */
    method MoveChild(p: Addr, child: Addr) returns (next: Addr)
      requires p in procs && kernel in procs && p != kernel && p in kids && kids[p] != [] && kids[p][0] == child != p
      requires Family(Adjusted(procs, p, child), kids, kernel)
      modifies this`procs, this`kids
      ensures p in procs && kernel in procs && Family(Adjusted(procs, p, next), kids, kernel)
      ensures Relinked(old(procs), procs, kernel)
      ensures procs[p].parent == old(procs)[p].parent && p in kids && kids[p] == old(kids[p][1..])
      ensures next == NextOf(kids[p], -1)
      ensures kids.Keys == old(kids.Keys) && forall q :: q in kids && q != p && q != kernel ==> kids[q] == old(kids)[q]
      ensures kernel in old(kids) ==> kernel in kids && kids[kernel] == [child] + old(kids)[kernel]
    {
      hide Family, Relinked, Moved, Adjusted;
      ghost var ta := Adjusted(procs, p, child);
      MovedFamily(ta, kids, kernel, p);
      assert child in ta.Keys;
      MoveWrites(procs, p, kernel, child);
      HeadOfRest(ta, kids[p], p, kids, kernel);
      next := procs[child].nextSibling;
      procs := procs[child := procs[child].(parent := kernel)];
      procs := procs[child := procs[child].(nextSibling := procs[kernel].childrenHead)];
      procs := procs[kernel := procs[kernel].(childrenHead := child)];
      kids := kids[p := kids[p][1..]][kernel := [child] + kids[kernel]];
      assert kids.Keys == old(kids.Keys);
    }

    /** process_exit. */
    method Exit(p: Addr, status: int)
      requires Valid() && p in procs && p != kernel && !procs[p].zombie
      modifies this`procs, this`threads, this`kids, this`exited
      ensures Valid() && exited == old(exited)[old(procs)[p].pid := status]
      ensures Exits(old(procs), procs, kernel, p, status) && KidsLeft(old(kids), kids, kernel, p)
      ensures Released(old(threads), threads, p, WaiterOf(old(procs), p))
    {
      hide Family, Pids, Childless, History, Alive, Waiters, Relinked, KidsLeft, Released, Exits, SameLinks, Killed;
      ghost var t0, k0, th0 := procs, kids, threads;
      Parent(procs, kids, kernel, p);
      LiveParent(procs, kids, kernel, p);
      NotOwnChild(procs, kids, kernel, nextPid, p);
      WaiterThread(procs, threads, procs[p].parent);
      procs := procs[p := procs[p].(status := status, zombie := true)];
      ZombieLinks(t0, p, status);
      SameFamily(t0, procs, kids, kernel);
      ghost var t1 := procs;
      Reparent(p);
      ghost var t2 := procs;
      RelinkedKeys(t1, t2, kernel);
      var parent := procs[p].parent;
      if parent != 0 && procs[parent].waiter != 0 {
        WakeWaiter(procs[parent].waiter);
        procs := procs[parent := procs[parent].(waiter := 0)];
      }
      ghost var th1 := threads;
      threads := Killed(threads, p);
      ExitsNow(t0, t1, t2, procs, kernel, p, status);
      SameFamily(t2, procs, kids, kernel);
      ReleasedNow(th0, th1, threads, p, t0[t0[p].parent].waiter);
      ExitInv(t0, k0, th0, exited, reaped, nextPid, kernel, p, status, procs, kids, threads);
      exited := exited[t0[p].pid := status];
    }

    /** thread_wake_waiter */
    method WakeWaiter(x: Tid)
      requires x in threads
      modifies this`threads
      ensures threads == if Waiting(old(threads)[x]) then old(threads)[x := old(threads)[x].(state := R.Ready)]
                else old(threads)
    {
      if threads[x].state == R.WaitingChild {
        threads := threads[x := threads[x].(state := R.Ready)];
      }
    }

    /** The search of sys_waitpid: the first child that matches and has exited. */
    method Scan(p: Addr, pid: int) returns (hasChildren: bool, found: Addr, ghost i: nat)
      requires Family(procs, kids, kernel) && p in procs && p in kids
      ensures found != 0 ==>
                && i < |kids[p]| && found == kids[p][i] && found in procs && procs[found].zombie
                && Matches(procs[found], pid) && hasChildren && NoMatch(procs, kids[p][..i], pid)
      ensures found == 0 ==>
                && NoMatch(procs, kids[p], pid)
                && (hasChildren <==>
                     exists j :: 0 <= j < |kids[p]| && kids[p][j] in procs && Matches(procs[kids[p][j]], pid))
    {
      hide Family;
      KidsOf(procs, kids, kernel, p);
      MineIn(procs, kids[p], p);
      ghost var s := kids[p];
      hasChildren, found, i := false, 0, 0;
      var child := procs[p].childrenHead;
      FamilyIn(procs, kids, kernel);
      while child != 0
        invariant 0 <= i <= |s| && child == NextOf(s, i - 1) && NoMatch(procs, s[..i], pid)
        invariant hasChildren <==> exists j :: 0 <= j < i && Matches(procs[s[j]], pid)
        decreases |s| - i
      {
        assert LinkAt(procs, s, p, i);
        assert s[..i + 1] == s[..i] + [s[i]];
        if pid == -1 || procs[child].pid == pid {
          hasChildren := true;
          if procs[child].zombie {
            found := child;
            return;
          }
        }
        child := procs[child].nextSibling;
        i := i + 1;
      }
      assert s[..i] == s;
    }

    /** process_destroy of a process without children or live threads: the walk
        along its parent's list, and the unlinking. */
    method Destroy(z: Addr)
      requires Valid() && z in procs && z != kernel && z in kids && kids[z] == []
      requires forall x :: x in threads && threads[x].process == z ==> threads[x].state == R.Dead
      modifies this`procs, this`kids, this`reaped
      ensures Valid() && Gone(old(procs), procs, z) && KidsGone(old(kids), kids, z)
      ensures old(procs)[z].parent in old(kids) && z in old(kids)[old(procs)[z].parent]
      ensures var p := old(procs)[z].parent; kids == old(kids)[p := Cut(old(kids)[p], Where(old(kids)[p], z))] - {z}
      ensures reaped == if old(procs)[z].zombie then old(reaped) + {old(procs)[z].pid} else old(reaped)
    {
      hide Family, Pids, Childless, History, Alive, Waiters, Gone, KidsGone;
      ghost var t0, k0 := procs, kids;
      Parent(procs, kids, kernel, z);
      NotOwnChild(procs, kids, kernel, nextPid, z);
      var parent := procs[z].parent;
      var prev := FindLink(parent, z);
      ghost var s := kids[parent];
      ghost var i := Where(s, z);
      OwnParent(procs, kids, kernel, nextPid, z);
      UnlinkedFamily(procs, kids, kernel, parent, i);
      KidsOf(procs, kids, kernel, parent);
      LinksDistinct(procs, s, parent);
      if i > 0 { Child(procs, kids, kernel, parent, i - 1); }
      if prev == 0 {
        procs := procs[parent := procs[parent].(childrenHead := procs[z].nextSibling)];
      } else {
        procs := procs[prev := procs[prev].(nextSibling := procs[z].nextSibling)];
      }
      procs := procs - {z};
      kids := kids[parent := Cut(s, i)] - {z};
      GoneNow(t0, procs, k0, kids, parent, s, i);
      GoneInv(t0, k0, threads, exited, reaped, nextPid, kernel, z, procs, kids);
      if t0[z].zombie { reaped := reaped + {t0[z].pid}; }
    }

    /** The sibling before `z` in the list of `parent`, or 0 when `z` is first. */
    method FindLink(parent: Addr, z: Addr) returns (prev: Addr)
      requires Family(procs, kids, kernel) && parent in procs && parent in kids && z in kids[parent]
      ensures var i := Where(kids[parent], z); prev == if i == 0 then 0 else kids[parent][i - 1]
    {
      hide Family;
      KidsOf(procs, kids, kernel, parent);
      FamilyIn(procs, kids, kernel);
      ghost var s := kids[parent];
      ghost var i := 0;
      prev := 0;
      var curr := procs[parent].childrenHead;
      while curr != 0 && curr != z
        invariant 0 <= i < |s| && curr == s[i] && z in s[i..] && prev == if i == 0 then 0 else s[i - 1]
        decreases |s| - i
      {
        assert LinkAt(procs, s, parent, i);
        assert s[i..] == [s[i]] + s[i + 1..];
        prev := curr;
        curr := procs[curr].nextSibling;
        i := i + 1;
      }
      assert LinkAt(procs, s, parent, i);
      WhereIs(procs, s, parent, i);
    }

    /** sys_waitpid up to the point where it returns or gives up the processor. */
    method WaitPid(x: Tid, pid: int, badStatus: bool) returns (r: WaitResult)
      requires Valid() && x in threads && threads[x].state == R.Running
      modifies this`procs, this`threads, this`kids, this`want, this`reaped
      ensures Valid()
      ensures old(threads[x].process) in old(procs) && old(threads[x].process) in old(kids)
      ensures WaitDid(old(procs), old(kids), old(threads), x, pid, badStatus, r, procs, kids, threads)
      ensures want == if r.Blocks? then old(want)[x := pid] else old(want)
      ensures if r.Reaped? then
                && r.pid in exited && exited[r.pid] == r.status && r.pid !in old(reaped)
                && reaped == old(reaped) + {r.pid} && !IsZombie(procs, r.pid)
              else reaped == old(reaped)
    {
      hide Family, Pids, Childless, History, Waiters, NoMatch;
      var proc := threads[x].process;
      KidsOf(procs, kids, kernel, proc);
      if pid != -1 && pid <= 0 { return Einval; }
      if badStatus { return Efault; }
      var hasChildren, found, i := Scan(proc, pid);
      if !hasChildren { return Echild; }
      if found != 0 {
        r := Reaped(procs[found].pid, procs[found].status);
        ZombieFacts(procs, kids, threads, exited, reaped, nextPid, kernel, proc, i);
        Child(procs, kids, kernel, proc, i);
        Destroy(found);
        assert ReapedAt(old(procs), procs, old(kids)[proc], i, pid, r);
        WhereIs(old(procs), old(kids)[proc], proc, i);
        assert kids == old(kids)[proc := Cut(old(kids)[proc], i)] - {found};
        ReapedGone(procs, exited, reaped, nextPid, r.pid);
        return;
      }
      BlockInv(procs, kids, threads, exited, reaped, nextPid, kernel, x, pid);
      procs := procs[proc := procs[proc].(waiter := x)];
      threads := threads[x := threads[x].(state := R.WaitingChild)];
      want := want[x := pid];
      return Blocks;
    }
  }

  // ------------------------------------------------- what the calls amount to

  /** `c` is a child of `p` that waitpid(pid) would take: any child for -1, the one of
      that pid otherwise. */
  ghost predicate Wanted(t: Table, p: Addr, pid: int, c: Addr)
  {
    c in t && t[c].parent == p && (pid == -1 || t[c].pid == pid)
  }

  lemma ChildrenAre(t: Table, kids: Kids, kernel: Addr, p: Addr, c: Addr)
    requires Family(t, kids, kernel) && p in t
    ensures p in kids && (c in kids[p] <==> c in t && t[c].parent == p)
  {
    assert p in kids.Keys && Links(t, kids[p], p);
    if c in kids[p] {
      var i :| 0 <= i < |kids[p]| && kids[p][i] == c;
      assert LinkAt(t, kids[p], p, i);
    }
    if c in t && t[c].parent == p { assert Kept(t, kids, kernel, c); }
  }

  /** waitpid: which answer it gives, from the children of the caller's process. */
  lemma WaitMeans(t: Table, kids: Kids, thr: Threads, x: Tid, pid: int, bad: bool, r: WaitResult, t': Table,
                  kids': Kids, thr': Threads, kernel: Addr)
    requires x in thr && thr[x].process in t && thr[x].process in kids && Family(t, kids, kernel)
    requires WaitDid(t, kids, thr, x, pid, bad, r, t', kids', thr')
    ensures
      var p := thr[x].process;
      if pid != -1 && pid <= 0 then r == Einval
      else if bad then r == Efault
      else
        && (r == Echild <==> forall c: Addr :: !Wanted(t, p, pid, c))
        && (r.Reaped? <==> exists c: Addr :: Wanted(t, p, pid, c) && t[c].zombie)
        && (r == Blocks <==>
              && (exists c: Addr :: Wanted(t, p, pid, c))
              && (forall c: Addr :: Wanted(t, p, pid, c) ==> !t[c].zombie))
    ensures r.Reaped? ==>
      exists c: Addr :: Wanted(t, thr[x].process, pid, c) && t[c].zombie && r.pid == t[c].pid && r.status == t[c].status
                        && t'.Keys == t.Keys - {c}
  {
    hide Family;
    var p := thr[x].process;
    var s := kids[p];
    forall c: Addr { ChildrenAre(t, kids, kernel, p, c); }
    if r.Reaped? {
      var i: nat :| i < |s| && ReapedAt(t, t', s, i, pid, r) && kids' == kids[p := Cut(s, i)] - {s[i]};
      assert s[i] in s && Wanted(t, p, pid, s[i]);
    } else if r.Blocks? {
      var j :| 0 <= j < |s| && s[j] in t && Matches(t[s[j]], pid);
      assert s[j] in s && Wanted(t, p, pid, s[j]);
      forall c: Addr | Wanted(t, p, pid, c) ensures !t[c].zombie {
        var k :| 0 <= k < |s| && s[k] == c;
      }
    }
  }

  /** exit: the process is a zombie with its status, its children are the kernel's, its
      threads are dead, and the waiter of its parent is ready and forgotten. */
  lemma ExitMeans(t: Table, kids: Kids, thr: Threads, kernel: Addr, p: Addr, status: int, t': Table, kids': Kids,
                  thr': Threads)
    requires Family(t, kids, kernel) && Family(t', kids', kernel) && p in t && p != kernel && t[p].parent in t
    requires Exits(t, t', kernel, p, status) && KidsLeft(kids, kids', kernel, p)
    requires Released(thr, thr', p, t[t[p].parent].waiter)
    ensures t'.Keys == t.Keys && thr'.Keys == thr.Keys
    ensures forall c :: c in t ==>
      && c in t'
      && t'[c].pid == t[c].pid && t'[c].zombie == (c == p || t[c].zombie)
      && t'[c].status == (if c == p then status else t[c].status)
      && t'[c].parent == (if t[c].parent == p then kernel else t[c].parent)
      && t'[c].waiter == (if c == t[p].parent then 0 else t[c].waiter)
    ensures forall y :: y in thr ==>
      && y in thr' && thr'[y].process == thr[y].process
      && thr'[y].state == if thr[y].process == p then R.Dead
                          else if y == t[t[p].parent].waiter && thr[y].state == R.WaitingChild then R.Ready
                          else thr[y].state
  {
    hide Family;
    forall c | c in t
      ensures c in t' && t'[c].parent == if t[c].parent == p then kernel else t[c].parent
    {
      assert c in t'.Keys;
      ExitParent(t, kids, kernel, p, status, t', kids', c);
    }
    forall y | y in thr ensures y in thr' && thr'[y] == After(thr[y], p, y == t[t[p].parent].waiter) {
      assert y in thr'.Keys;
    }
  }

  lemma ExitParent(t: Table, kids: Kids, kernel: Addr, p: Addr, status: int, t': Table, kids': Kids, c: Addr)
    requires Family(t, kids, kernel) && Family(t', kids', kernel) && p in t && p != kernel && c in t && c in t'
    requires Exits(t, t', kernel, p, status) && KidsLeft(kids, kids', kernel, p)
    ensures t'[c].parent == if t[c].parent == p then kernel else t[c].parent
  {
    FamilyIn(t, kids, kernel);
    FamilyIn(t', kids', kernel);
    var q := t[c].parent;
    if q in t {
      ChildrenAre(t, kids, kernel, q, c);
      ChildrenAre(t', kids', kernel, q, c);
    }
    hide Family;
    assert t'[c].parent == t[c].parent || t'[c].parent == kernel;
  }

  // --------------------------------------------------- lemmas of the methods

  /** thread_terminate_process, whose loop over the ring is Sched.Terminate. */
  function Killed(thr: Threads, p: Addr): Threads
  {
    map x | x in thr :: if thr[x].process == p then thr[x].(state := R.Dead) else thr[x]
  }

  function Adjusted(t: Table, p: Addr, head: Addr): (t': Table)
    requires p in t
    ensures t'.Keys == t.Keys
  {
    t[p := t[p].(childrenHead := head)]
  }

  /** The writes of one turn, in the order of the source. */
  lemma MoveWrites(t: Table, p: Addr, k: Addr, c: Addr)
    requires p in t && k in t && c in t && p != k && c != k && c != p
    ensures var t1 := t[c := t[c].(parent := k)];
            var t2 := t1[c := t1[c].(nextSibling := t1[k].childrenHead)];
            var t3 := t2[k := t2[k].(childrenHead := c)];
            && p in t3 && k in t3 && t3[p].parent == t[p].parent && Relinked(t, t3, k)
            && c in Adjusted(t, p, c) && Adjusted(t, p, c)[c] == t[c]
            && Adjusted(t3, p, t[c].nextSibling) == Moved(Adjusted(t, p, c), p, k, c)
  {
    var t1 := t[c := t[c].(parent := k)];
    var t2 := t1[c := t1[c].(nextSibling := t1[k].childrenHead)];
    var t3 := t2[k := t2[k].(childrenHead := c)];
    MoveRelinked(t, t1, t2, t3, k, c);
    hide Relinked;
    assert Adjusted(t3, p, t[c].nextSibling).Keys == Moved(Adjusted(t, p, c), p, k, c).Keys;
  }

  lemma MoveRelinked(t: Table, t1: Table, t2: Table, t3: Table, k: Addr, c: Addr)
    requires k in t && c in t && t1 == t[c := t[c].(parent := k)]
    requires t2 == t1[c := t1[c].(nextSibling := t1[k].childrenHead)]
    requires t3 == t2[k := t2[k].(childrenHead := c)]
    ensures Relinked(t, t3, k)
  {
    assert t3.Keys == t.Keys;
  }

  lemma SameHead(t: Table, p: Addr)
    requires p in t
    ensures Adjusted(t, p, t[p].childrenHead) == t
  {
  }

  /** Only links changed, and parents only to the kernel's process. */
  ghost predicate Relinked(t: Table, t': Table, kernel: Addr)
  {
    && t'.Keys == t.Keys
    && forall x :: x in t ==> SameButLinks(t[x], t'[x]) && (t'[x].parent == t[x].parent || t'[x].parent == kernel)
  }

  lemma RelinkedRefl(t: Table, kernel: Addr)
    ensures Relinked(t, t, kernel)
  {
  }

  lemma RelinkedTrans(t0: Table, t1: Table, t2: Table, kernel: Addr)
    requires Relinked(t0, t1, kernel) && Relinked(t1, t2, kernel)
    ensures Relinked(t0, t2, kernel)
  {
    forall x | x in t0 ensures SameButLinks(t0[x], t2[x]) && (t2[x].parent == t0[x].parent || t2[x].parent == kernel) {
      assert x in t1.Keys && SameButLinks(t0[x], t1[x]) && SameButLinks(t1[x], t2[x]);
    }
  }

  lemma RelinkedHead(t0: Table, t: Table, kernel: Addr, p: Addr)
    requires Relinked(t0, t, kernel) && p in t
    ensures Relinked(t0, t[p := t[p].(childrenHead := 0)], kernel)
  {
    assert t[p := t[p].(childrenHead := 0)].Keys == t.Keys;
  }

  lemma RelinkedKeys(t: Table, t': Table, kernel: Addr)
    requires Relinked(t, t', kernel)
    ensures t'.Keys == t.Keys && forall x :: x in t ==> x in t' && t'[x].waiter == t[x].waiter
  {
    forall x | x in t
      ensures x in t' && t'[x].waiter == t[x].waiter
    {
      assert x in t'.Keys && SameButLinks(t[x], t'[x]);
    }
  }

  lemma HeadOfRest(t: Table, s: seq<Addr>, p: Addr, kids: Kids, kernel: Addr)
    requires Family(t, kids, kernel) && p in kids && kids[p] == s && s != [] && s[0] in t
    ensures t[s[0]].nextSibling == NextOf(s[1..], -1)
  {
    Child(t, kids, kernel, p, 0);
  }

  lemma EndOfList(t: Table, kids: Kids, kernel: Addr, p: Addr)
    requires Family(t, kids, kernel) && p in t && p in kids && t[p].childrenHead == 0
    ensures kids[p] == []
  {
    KidsOf(t, kids, kernel, p);
    if kids[p] != [] { Child(t, kids, kernel, p, 0); }
  }

  /** Parents are older than their children, so nobody is their own child. */
  lemma NotOwnChild(t: Table, kids: Kids, kernel: Addr, nextPid: nat, p: Addr)
    requires Family(t, kids, kernel) && Pids(t, kernel, nextPid) && p in t && p != kernel
    ensures p in kids && p !in kids[p]
  {
    hide Family, Pids;
    KidsOf(t, kids, kernel, p);
    OwnParent(t, kids, kernel, nextPid, p);
    NotMine(t, kids[p], p, p);
  }

  lemma OwnParent(t: Table, kids: Kids, kernel: Addr, nextPid: nat, p: Addr)
    requires Family(t, kids, kernel) && Pids(t, kernel, nextPid) && p in t && p != kernel
    ensures t[p].parent != p
  {
    hide Family;
    assert Older(t, kernel, p);
  }

  lemma WaiterThread(t: Table, thr: Threads, q: Addr)
    requires Waiters(t, thr) && q in t && !t[q].zombie
    ensures t[q].waiter != 0 ==> t[q].waiter in thr && Waiting(thr[t[q].waiter])
  {
  }

  lemma ZombieLinks(t: Table, p: Addr, status: int)
    requires p in t
    ensures SameLinks(t, t[p := t[p].(status := status, zombie := true)])
  {
  }

  lemma ExitsNow(t0: Table, t1: Table, t2: Table, t: Table, kernel: Addr, p: Addr, status: int)
    requires p in t0 && t1 == t0[p := t0[p].(status := status, zombie := true)] && Relinked(t1, t2, kernel)
    requires t0[p].parent in t0 && t0[p].parent in t2 && t0[p].parent != p
    requires (t == t2 && t2[t0[p].parent].waiter == 0) || t == t2[t0[p].parent := t2[t0[p].parent].(waiter := 0)]
    ensures Exits(t0, t, kernel, p, status) && SameLinks(t2, t)
  {
    assert t1.Keys == t0.Keys && t.Keys == t2.Keys;
    forall x | x in t0
      ensures Exited(t0[x], t[x], x == p, status, x == t0[p].parent)
      ensures (t[x].parent == t0[x].parent || t[x].parent == kernel)
    {
      assert x in t1.Keys && SameButLinks(t1[x], t2[x]);
    }
  }

  lemma ReleasedNow(th0: Threads, th1: Threads, th: Threads, p: Addr, w: Tid)
    requires w != 0 ==> w in th0 && Waiting(th0[w]) && th1 == th0[w := th0[w].(state := R.Ready)]
    requires w == 0 ==> th1 == th0 && 0 !in th0
    requires th == Killed(th1, p)
    ensures Released(th0, th, p, w)
  {
    assert th.Keys == th1.Keys == th0.Keys;
  }

  ghost function Where(s: seq<Addr>, z: Addr): (i: nat)
    requires z in s
    ensures i < |s| && s[i] == z
  {
    var i :| 0 <= i < |s| && s[i] == z;
    i
  }

  lemma WhereIs(t: Table, s: seq<Addr>, p: Addr, i: nat)
    requires Links(t, s, p) && i < |s|
    ensures Where(s, s[i]) == i
  {
  }

  lemma LinksDistinct(t: Table, s: seq<Addr>, p: Addr)
    requires Links(t, s, p)
    ensures Distinct(s)
  {
  }

  lemma GoneNow(t: Table, t': Table, kids: Kids, kids': Kids, p: Addr, s: seq<Addr>, i: nat)
    requires i < |s| && p in t && s[i] in t && (i > 0 ==> s[i - 1] in t) && s[i] != p && Distinct(s)
    requires t' == Unlinked(t, p, s, i) - {s[i]} && p in kids && kids[p] == s && kids' == kids[p := Cut(s, i)] - {s[i]}
    ensures Gone(t, t', s[i]) && KidsGone(kids, kids', s[i])
  {
    assert t'.Keys == t.Keys - {s[i]} && kids'.Keys == kids.Keys - {s[i]};
    assert i > 0 ==> s[i - 1] != s[i];
  }

  lemma ZombieFacts(t: Table, kids: Kids, thr: Threads, exited: map<nat, int>, reaped: set<nat>, nextPid: nat,
                    kernel: Addr, p: Addr, i: nat)
    requires Family(t, kids, kernel) && Childless(t, kids) && History(t, exited, reaped, nextPid) && Alive(t, thr)
    requires p in kids && i < |kids[p]| && kids[p][i] in t && t[kids[p][i]].zombie
    ensures var z := kids[p][i];
            && z != kernel && z in kids && kids[z] == [] && t[z].pid in exited && exited[t[z].pid] == t[z].status
            && t[z].pid !in reaped
            && forall x :: x in thr && thr[x].process == z ==> thr[x].state == R.Dead
  {
    hide Family;
    Child(t, kids, kernel, p, i);
    assert Recorded(t[kids[p][i]], exited, reaped);
  }

  lemma ReapedGone(t: Table, exited: map<nat, int>, reaped: set<nat>, nextPid: nat, pid: nat)
    requires History(t, exited, reaped, nextPid) && pid in reaped
    ensures !IsZombie(t, pid)
  {
    forall p | p in t ensures t[p].pid != pid { assert Recorded(t[p], exited, reaped); }
  }

  // -------------------------------------------------------------- whole runs

  /** A step of some thread `x`, or of the scheduler. */
  datatype Event =
    | Spawn(x: Tid, proc: Addr)
    | NewThread(x: Tid, proc: Addr)
    | Exit(x: Tid, status: int)
    | WaitFor(x: Tid, pid: int, badStatus: bool)
    | Switch(x: Tid, state: R.State)
    | Drop(x: Tid)

  /** The processes, their child lists, the threads, the next pid, and what each
      waiting thread waits for. */
  datatype View = View(procs: Table, kids: Kids, threads: Threads, nextPid: nat, want: map<Tid, int>)

  predicate Runs(thr: Threads, x: Tid)
  {
    x in thr && thr[x].state == R.Running
  }

  function WaiterOf(t: Table, p: Addr): Tid
    requires p in t
  {
    if t[p].parent in t then t[t[p].parent].waiter else 0
  }

  /** What an event does; `r` is the answer of a waitpid. */
  ghost predicate Did(kernel: Addr, v: View, e: Event, r: WaitResult, v': View)
  {
    match e
    case Spawn(x, n) =>
      if Runs(v.threads, x) && n !in v.procs && n != 0 then
        var q := v.threads[x].process;
        && q in v.procs
        && v' == v.(procs := Born(v.procs, n, q, v.nextPid), kids := BornKids(v.kids, n, q), nextPid := v.nextPid + 1)
      else v' == v
    case NewThread(x, p) =>
      v' == if x !in v.threads && x != 0 && p in v.procs && !v.procs[p].zombie
            then v.(threads := v.threads[x := Thr(R.Ready, p)]) else v
    case Exit(x, status) =>
      if Runs(v.threads, x) && v.threads[x].process != kernel then
        var p := v.threads[x].process;
        && p in v.procs && v'.nextPid == v.nextPid && v'.want == v.want
        && Exits(v.procs, v'.procs, kernel, p, status) && KidsLeft(v.kids, v'.kids, kernel, p)
        && Released(v.threads, v'.threads, p, WaiterOf(v.procs, p))
      else v' == v
    case WaitFor(x, pid, bad) =>
      if Runs(v.threads, x) then
        && v.threads[x].process in v.procs && v.threads[x].process in v.kids && v'.nextPid == v.nextPid
        && v'.want == (if r.Blocks? then v.want[x := pid] else v.want)
        && WaitDid(v.procs, v.kids, v.threads, x, pid, bad, r, v'.procs, v'.kids, v'.threads)
      else v' == v
    case Switch(x, st) =>
      v' == if x in v.threads && v.threads[x].state != R.Dead && !Waiting(v.threads[x]) && st != R.WaitingChild
            then v.(threads := v.threads[x := v.threads[x].(state := st)]) else v
    case Drop(x) =>
      v' == if x in v.threads && v.threads[x].state == R.Dead then v.(threads := v.threads - {x}) else v
  }

  /** No wakeup of process `p` is lost. */
  ghost predicate Attentive(v: View, p: Addr)
  {
    Attends(v.procs, v.kids, v.threads, v.want, p)
  }

  /** waitpid by a thread of `p` blocks: a child matches, and none that does has
      exited. */
  ghost predicate MustWait(v: View, p: Addr, pid: int, bad: bool)
  {
    && (pid == -1 || pid > 0) && !bad && p in v.kids && NoMatch(v.procs, v.kids[p], pid)
    && exists j :: 0 <= j < |v.kids[p]| && v.kids[p][j] in v.procs && Matches(v.procs[v.kids[p][j]], pid)
  }

  /** The event loses a wakeup of process `p`: a second thread of `p` starts to wait;
      or `p` is the kernel's process and inherits a zombie that a thread of it waits
      for from a process that is not its child. */
  ghost predicate Forgets(kernel: Addr, v: View, e: Event, p: Addr)
  {
    match e
    case WaitFor(x, pid, bad) =>
      Runs(v.threads, x) && v.threads[x].process == p && MustWait(v, p, pid, bad) && OtherWaits(v.threads, p)
    case Exit(x, _) =>
      && p == kernel && Runs(v.threads, x)
      && var z := v.threads[x].process;
         && z != kernel && z in v.procs && z in v.kids && v.procs[z].parent != kernel
         && WaitsForOrphan(v.procs, v.kids, v.threads, v.want, kernel, z)
    case _ => false
  }

  /** From one state to the next, a process whose waiters were attended to keeps that
      exactly when the event does not forget one. */
  ghost predicate Heeds(kernel: Addr, v: View, e: Event, v': View)
  {
    forall p: Addr :: Attentive(v, p) ==> (Attentive(v', p) <==> !Forgets(kernel, v, e, p))
  }

  lemma HeedsSpawn(kernel: Addr, v: View, e: Event, n: Addr, q: Addr, v': View)
    requires e.Spawn? && Family(v.procs, v.kids, kernel) && n !in v.procs && q in v.procs
    requires v' == v.(procs := Born(v.procs, n, q, v.nextPid), kids := BornKids(v.kids, n, q), nextPid := v'.nextPid)
    ensures Heeds(kernel, v, e, v')
  {
    hide Family, Born, BornKids, Attends;
    FamilyIn(v.procs, v.kids, kernel);
    assert n !in v.kids.Keys && q in v.kids.Keys;
    forall p: Addr | Attentive(v, p) ensures Attentive(v', p) {
      BornAttends(v.procs, v.kids, v.threads, v.want, n, q, v.nextPid, p);
    }
  }

  lemma HeedsThreads(kernel: Addr, v: View, e: Event, v': View)
    requires e.NewThread? || e.Switch? || e.Drop?
    requires v' == v.(threads := v'.threads) && Harmless(v.procs, v.threads, v'.threads)
    ensures Heeds(kernel, v, e, v')
  {
    hide Attends, Harmless;
    forall p: Addr | Attentive(v, p) ensures Attentive(v', p) {
      HarmlessAttends(v.procs, v.kids, v.threads, v'.threads, v.want, p);
    }
  }

  lemma HeedsExit(kernel: Addr, v: View, e: Event, r: WaitResult, v': View)
    requires e.Exit? && Runs(v.threads, e.x) && v.threads[e.x].process != kernel && Did(kernel, v, e, r, v')
    requires Family(v.procs, v.kids, kernel) && Family(v'.procs, v'.kids, kernel) && Childless(v.procs, v.kids)
    requires Pids(v.procs, kernel, v.nextPid) && Waiters(v.procs, v.threads) && 0 !in v.threads
    ensures Heeds(kernel, v, e, v')
  {
    hide Family, Attends, Exits, KidsLeft, Released, Childless, Pids, Waiters, WaitsForOrphan;
    var z := v.threads[e.x].process;
    Parent(v.procs, v.kids, kernel, z);
    LiveParent(v.procs, v.kids, kernel, z);
    NotOwnChild(v.procs, v.kids, kernel, v.nextPid, z);
    forall p: Addr | Attentive(v, p) ensures Attentive(v', p) <==> !Forgets(kernel, v, e, p) {
      if p == kernel {
        OrphansIff(v.procs, v'.procs, v.kids, v'.kids, v.threads, v'.threads, v.want, kernel, z, e.status);
      } else {
        ExitAttends(v.procs, v'.procs, v.kids, v'.kids, v.threads, v'.threads, v.want, kernel, z, e.status, p);
      }
    }
  }

  lemma HeedsWait(kernel: Addr, v: View, e: Event, r: WaitResult, v': View)
    requires e.WaitFor? && Runs(v.threads, e.x) && Did(kernel, v, e, r, v')
    requires Family(v.procs, v.kids, kernel) && Family(v'.procs, v'.kids, kernel) && Alive(v.procs, v.threads)
    ensures Heeds(kernel, v, e, v')
  {
    hide Family, Attends, NoMatch, ReapedAt, Alive;
    var z := v.threads[e.x].process;
    WaitTold(v, e.x, e.pid, e.badStatus, r, v');
    forall p: Addr | Attentive(v, p) ensures Attentive(v', p) <==> !Forgets(kernel, v, e, p) {
      match r {
        case Blocks => BlockKeepsIff(v.procs, v.kids, v.threads, v.want, e.x, e.pid, p);
        case Reaped(_, _) =>
          var i: nat :| i < |v.kids[z]| && ReapedAt(v.procs, v'.procs, v.kids[z], i, e.pid, r)
                        && v'.kids == v.kids[z := Cut(v.kids[z], i)] - {v.kids[z][i]};
          ReapAttends(kernel, v, z, i, e.pid, r, v', p);
        case Einval =>
        case Efault =>
        case Echild =>
      }
    }
  }

  /** The answer tells whether the caller had to wait. */
  lemma WaitTold(v: View, x: Tid, pid: int, bad: bool, r: WaitResult, v': View)
    requires x in v.threads && v.threads[x].process in v.procs && v.threads[x].process in v.kids
    requires WaitDid(v.procs, v.kids, v.threads, x, pid, bad, r, v'.procs, v'.kids, v'.threads)
    ensures r.Blocks? <==> MustWait(v, v.threads[x].process, pid, bad)
  {
    if r.Reaped? {
      var s := v.kids[v.threads[x].process];
      var i: nat :| i < |s| && ReapedAt(v.procs, v'.procs, s, i, pid, r);
    }
  }

  lemma ReapAttends(kernel: Addr, v: View, z: Addr, i: nat, pid: int, r: WaitResult, v': View, p: Addr)
    requires z in v.kids && i < |v.kids[z]| && ReapedAt(v.procs, v'.procs, v.kids[z], i, pid, r)
    requires v'.kids == v.kids[z := Cut(v.kids[z], i)] - {v.kids[z][i]} && v'.threads == v.threads && v'.want == v.want
    requires Family(v'.procs, v'.kids, kernel) && Alive(v.procs, v.threads) && Attentive(v, p)
    ensures Attentive(v', p)
  {
    hide Family, Attends, NoMatch;
    var c := v.kids[z][i];
    CutGone(v.kids, z, i);
    GoneAttends(v.procs, v'.procs, v.kids, v'.kids, v.threads, v.want, kernel, c, p);
  }

  lemma CutGone(kids: Kids, z: Addr, i: nat)
    requires z in kids && i < |kids[z]|
    ensures KidsGone(kids, kids[z := Cut(kids[z], i)] - {kids[z][i]}, kids[z][i])
  {
    assert (kids[z := Cut(kids[z], i)] - {kids[z][i]}).Keys == kids.Keys - {kids[z][i]};
  }

  ghost predicate Traced(kernel: Addr, trace: seq<View>, events: seq<Event>, answers: seq<WaitResult>)
  {
    && |trace| == |events| + 1 && |answers| == |events|
    && forall i :: 0 <= i < |events| ==> Did(kernel, trace[i], events[i], answers[i], trace[i + 1])
                                         && Heeds(kernel, trace[i], events[i], trace[i + 1])
  }

  lemma TraceMore(kernel: Addr, trace: seq<View>, events: seq<Event>, answers: seq<WaitResult>, n: nat, r: WaitResult,
                  v: View)
    requires n < |events| && Traced(kernel, trace, events[..n], answers)
    requires Did(kernel, trace[n], events[n], r, v) && Heeds(kernel, trace[n], events[n], v)
    ensures Traced(kernel, trace + [v], events[..n + 1], answers + [r])
  {
    hide Did, Heeds;
    var t, a := trace + [v], answers + [r];
    forall i | 0 <= i < n + 1
      ensures Did(kernel, t[i], events[..n + 1][i], a[i], t[i + 1]) && Heeds(kernel, t[i], events[..n + 1][i], t[i + 1])
    {
      if i < n {
        assert Did(kernel, trace[i], events[..n][i], answers[i], trace[i + 1]);
        assert Heeds(kernel, trace[i], events[..n][i], trace[i + 1]);
      }
    }
  }

  /** No event among the first `n` forgets a waiter of `p`. */
  ghost predicate Remembers(kernel: Addr, trace: seq<View>, events: seq<Event>, p: Addr, n: nat)
    requires n <= |events| && n <= |trace|
  {
    forall i :: 0 <= i < n ==> !Forgets(kernel, trace[i], events[i], p)
  }

  /** All along a run, the waiters of a process are attended to exactly until an event
      forgets one. */
  lemma {:induction false} AttentiveUntil(kernel: Addr, trace: seq<View>, events: seq<Event>, answers: seq<WaitResult>,
                                          p: Addr, n: nat)
    requires Traced(kernel, trace, events, answers) && Attentive(trace[0], p) && n <= |events|
    ensures (forall i :: 0 <= i <= n ==> Attentive(trace[i], p)) <==> Remembers(kernel, trace, events, p, n)
  {
    hide Did, Attends, Forgets;
    if n == 0 {
      assert Remembers(kernel, trace, events, p, 0);
    } else {
      AttentiveUntil(kernel, trace, events, answers, p, n - 1);
      assert Heeds(kernel, trace[n - 1], events[n - 1], trace[n]);
      if Remembers(kernel, trace, events, p, n) {
        assert Remembers(kernel, trace, events, p, n - 1);
        assert Attentive(trace[n - 1], p);
      }
      if forall i :: 0 <= i <= n ==> Attentive(trace[i], p) {
        assert Remembers(kernel, trace, events, p, n - 1) && Attentive(trace[n - 1], p) && Attentive(trace[n], p);
      }
    }
  }

  /** One event; it does nothing where the system could not perform it: a dead
      thread takes no step, and addresses in use are not handed out again. */
  method Happen(k: Kernel, e: Event) returns (r: WaitResult)
    requires k.Valid()
    modifies k
    ensures k.Valid() && Did(k.kernel, old(k.Seen()), e, r, k.Seen()) && Heeds(k.kernel, old(k.Seen()), e, k.Seen())
    ensures old(k.exited).Keys <= k.exited.Keys && forall y :: y in old(k.exited) ==> k.exited[y] == old(k.exited)[y]
    ensures if r.Reaped? then
              && r.pid !in old(k.reaped) && k.reaped == old(k.reaped) + {r.pid}
              && r.pid in k.exited && k.exited[r.pid] == r.status
            else k.reaped == old(k.reaped)
  {
    hide Inv, Alive, History, Exits, Released, KidsLeft, IsZombie, WaitDid, Born, BornKids, Heeds, Harmless;
    hide Family, Childless, Pids, Waiters;
    r := Echild;
    ghost var v := k.Seen();
    InvFacts(k.procs, k.kids, k.threads, k.exited, k.reaped, k.nextPid, k.kernel);
    HeedsNothing(k.kernel, v, e);
    match e {
      case Spawn(x, n) =>
        if Runs(k.threads, x) && n !in k.procs && n != 0 {
          k.Spawn(x, n);
          HeedsSpawn(k.kernel, v, e, n, v.threads[x].process, k.Seen());
        }
      case NewThread(x, p) =>
        if x !in k.threads && x != 0 && p in k.procs && !k.procs[p].zombie {
          k.AddThread(x, p);
          HeedsThreads(k.kernel, v, e, k.Seen());
        }
      case Exit(x, status) =>
        if Runs(k.threads, x) && k.threads[x].process != k.kernel {
          LiveProcess(k.procs, k.threads, x);
          NotYetExited(k.procs, k.exited, k.reaped, k.nextPid, k.threads[x].process);
          k.Exit(k.threads[x].process, status);
          InvFacts(k.procs, k.kids, k.threads, k.exited, k.reaped, k.nextPid, k.kernel);
          HeedsExit(k.kernel, v, e, r, k.Seen());
        }
      case WaitFor(x, pid, bad) =>
        if Runs(k.threads, x) {
          r := k.WaitPid(x, pid, bad);
          InvFacts(k.procs, k.kids, k.threads, k.exited, k.reaped, k.nextPid, k.kernel);
          HeedsWait(k.kernel, v, e, r, k.Seen());
        }
      case Switch(x, st) =>
        if x in k.threads && k.threads[x].state != R.Dead && !Waiting(k.threads[x]) && st != R.WaitingChild {
          k.SwitchThread(x, st);
          HeedsThreads(k.kernel, v, e, k.Seen());
        }
      case Drop(x) =>
        if x in k.threads && k.threads[x].state == R.Dead {
          k.DropThread(x);
          HeedsThreads(k.kernel, v, e, k.Seen());
        }
    }
  }

  /** An event that does not happen forgets nothing. */
  lemma HeedsNothing(kernel: Addr, v: View, e: Event)
    ensures e.Exit? && !(Runs(v.threads, e.x) && v.threads[e.x].process != kernel) ==> Heeds(kernel, v, e, v)
    ensures e.WaitFor? && !Runs(v.threads, e.x) ==> Heeds(kernel, v, e, v)
    ensures !e.Exit? && !e.WaitFor? ==> Heeds(kernel, v, e, v)
  {
    hide Attends;
  }

  lemma LiveProcess(t: Table, thr: Threads, x: Tid)
    requires Alive(t, thr) && x in thr && thr[x].state != R.Dead
    ensures thr[x].process in t && !t[thr[x].process].zombie
  {
  }

  lemma InvFacts(t: Table, kids: Kids, thr: Threads, exited: map<nat, int>, reaped: set<nat>, nextPid: nat,
                 kernel: Addr)
    requires Inv(t, kids, thr, exited, reaped, nextPid, kernel)
    ensures 0 !in thr && Alive(t, thr) && History(t, exited, reaped, nextPid)
    ensures Family(t, kids, kernel) && Childless(t, kids) && Pids(t, kernel, nextPid) && Waiters(t, thr)
  {
  }

  lemma NotYetExited(t: Table, exited: map<nat, int>, reaped: set<nat>, nextPid: nat, p: Addr)
    requires History(t, exited, reaped, nextPid) && p in t && !t[p].zombie
    ensures t[p].pid !in exited
  {
    assert Recorded(t[p], exited, reaped);
  }

  ghost predicate Honest(log: seq<WaitResult>, exited: map<nat, int>, reaped: set<nat>)
  {
    && (forall i :: 0 <= i < |log| ==>
          log[i].Reaped? && log[i].pid in exited && exited[log[i].pid] == log[i].status && log[i].pid in reaped)
    && (forall i, j :: 0 <= i < j < |log| ==> log[i].pid != log[j].pid)
  }

  function AtBoot(boot: Addr, main: Tid): View
  {
    View(map[boot := Proc(0, false, 0, 0, 0, 0, 0)], map[boot := []], map[main := Thr(R.Running, boot)], 1, map[])
  }

  /** Any run from boot: no process loses a wakeup, the kernel's own included, exactly
      until an event forgets one; every process that exited is a zombie or was reaped;
      and no process is reaped twice or with a status other than the one it exited
      with. */
  method Run(boot: Addr, main: Tid, events: seq<Event>)
    returns (k: Kernel, answers: seq<WaitResult>, log: seq<WaitResult>, ghost trace: seq<View>)
    requires boot != 0 && main != 0
    ensures fresh(k) && k.Valid() && k.kernel == boot
    ensures Honest(log, k.exited, k.reaped) && |log| == |k.reaped| && log == OnlyReaped(answers)
    ensures Traced(boot, trace, events, answers) && trace[0] == AtBoot(boot, main) && trace[|events|] == k.Seen()
    ensures forall p: Addr :: (forall i :: 0 <= i <= |events| ==> Attentive(trace[i], p))
                              <==> Remembers(boot, trace, events, p, |events|)
  {
    hide Inv, Honest, Traced, Did, Heeds, Attends, Forgets;
    k := new Kernel(boot, main);
    answers, log, trace := [], [], [k.Seen()];
    NothingReaped(k.exited);
    NoTrace(boot, trace, events);
    for i := 0 to |events|
      invariant fresh(k) && k.Valid() && k.kernel == boot
      invariant Honest(log, k.exited, k.reaped) && |log| == |k.reaped| && log == OnlyReaped(answers)
      invariant |trace| == i + 1 && |answers| == i && Traced(boot, trace, events[..i], answers)
      invariant trace[0] == AtBoot(boot, main) && trace[i] == k.Seen()
    {
      ghost var e0, r0 := k.exited, k.reaped;
      var r := Happen(k, events[i]);
      TraceMore(boot, trace, events, answers, i, r, k.Seen());
      trace := trace + [k.Seen()];
      assert (answers + [r])[..i] == answers;
      answers := answers + [r];
      HonestKept(log, e0, k.exited, r0, k.reaped);
      HonestPids(log, e0, r0);
      if r.Reaped? {
        HonestMore(log, k.exited, r0, k.reaped, r);
        log := log + [r];
      }
    }
    assert events[..|events|] == events;
    forall p: Addr
      ensures (forall i :: 0 <= i <= |events| ==> Attentive(trace[i], p))
              <==> Remembers(boot, trace, events, p, |events|)
    {
      BootAttends(boot, main, p);
      AttentiveUntil(boot, trace, events, answers, p, |events|);
    }
  }

  lemma BootAttends(boot: Addr, main: Tid, p: Addr)
    ensures Attentive(AtBoot(boot, main), p)
  {
  }

  function OnlyReaped(answers: seq<WaitResult>): seq<WaitResult>
  {
    if answers == [] then []
    else OnlyReaped(answers[..|answers| - 1]) + if answers[|answers| - 1].Reaped? then [answers[|answers| - 1]] else []
  }

  lemma NoTrace(kernel: Addr, trace: seq<View>, events: seq<Event>)
    requires |trace| == 1
    ensures Traced(kernel, trace, events[..0], [])
  {
  }

  lemma NothingReaped(exited: map<nat, int>)
    ensures Honest([], exited, {})
  {
  }

  lemma HonestKept(log: seq<WaitResult>, e0: map<nat, int>, exited: map<nat, int>, r0: set<nat>, reaped: set<nat>)
    requires Honest(log, e0, r0) && e0.Keys <= exited.Keys && r0 <= reaped && forall y :: y in e0 ==> exited[y] == e0[y]
    ensures Honest(log, exited, reaped)
  {
    forall i | 0 <= i < |log|
      ensures log[i].pid in exited && exited[log[i].pid] == log[i].status
    {
      assert log[i].pid in e0.Keys;
    }
  }

  lemma HonestPids(log: seq<WaitResult>, exited: map<nat, int>, reaped: set<nat>)
    requires Honest(log, exited, reaped)
    ensures forall i :: 0 <= i < |log| ==> log[i].Reaped? && log[i].pid in reaped
  {
  }

  lemma HonestMore(log: seq<WaitResult>, exited: map<nat, int>, r0: set<nat>, reaped: set<nat>, r: WaitResult)
    requires Honest(log, exited, reaped) && r.Reaped? && r.pid !in r0 && reaped == r0 + {r.pid} && r.pid in exited
    requires exited[r.pid] == r.status
    requires forall i :: 0 <= i < |log| ==> log[i].Reaped? && log[i].pid in r0
    ensures Honest(log + [r], exited, reaped) && |reaped| == |r0| + 1
  {
  }
}
