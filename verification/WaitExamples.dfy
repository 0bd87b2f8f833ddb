/** Two states that keep every invariant of exit and wait, each with an event after
    which a thread waits for a wakeup that has already gone by. */
module WaitExamples {
  import opened Processes
  import opened Wait
  import R = Ring

  // --------------------------------------------------- two threads that wait

  /** Process 1 is the kernel's, 2 is its child, 3 the child of 2. Thread 2 of process
      2 waits for any child, thread 3 of that process runs. */
  function OneWaits(): View
  {
    View(map[1 := Proc(0, false, 0, 2, 0, 0, 0), 2 := Proc(1, false, 1, 3, 0, 0, 2),
             3 := Proc(2, false, 2, 0, 0, 0, 0)],
         map[1 := [2], 2 := [3], 3 := []],
         map[1 := Thr(R.Ready, 1), 2 := Thr(R.WaitingChild, 2), 3 := Thr(R.Running, 2)], 3, map[2 := -1])
  }

  lemma OneWaitsFamily()
    ensures var v := OneWaits(); Family(v.procs, v.kids, 1)
  {
    var t, kids := OneWaits().procs, OneWaits().kids;
    assert LinkAt(t, [2], 1, 0) && LinkAt(t, [3], 2, 0);
    assert kids[1] == [2] && kids[2] == [3] && kids[3] == [];
    assert Links(t, kids[1], 1) && Links(t, kids[2], 2) && Links(t, kids[3], 3);
    assert Kept(t, kids, 1, 1) && Kept(t, kids, 1, 2) && Kept(t, kids, 1, 3);
  }

  lemma OneWaitsInv()
    ensures var v := OneWaits(); Inv(v.procs, v.kids, v.threads, map[], {}, v.nextPid, 1)
  {
    OneWaitsFamily();
    OneWaitsPids();
    OneWaitsThreads();
    hide Family, Pids, Alive, Waiters;
  }

  lemma OneWaitsPids()
    ensures Pids(OneWaits().procs, 1, 3)
  {
    var t := OneWaits().procs;
    assert t.Keys == {1, 2, 3};
    assert Older(t, 1, 1) && Older(t, 1, 2) && Older(t, 1, 3);
  }

  lemma OneWaitsThreads()
    ensures var v := OneWaits(); Alive(v.procs, v.threads) && Waiters(v.procs, v.threads)
  {
  }

  /** When the second thread starts to wait too, the first is forgotten. */
  lemma SecondWaits()
    ensures var v := OneWaits();
            && Inv(v.procs, v.kids, v.threads, map[], {}, v.nextPid, 1) && Attentive(v, 2)
            && !Attends(v.procs[2 := v.procs[2].(waiter := 3)], v.kids,
                        v.threads[3 := Thr(R.WaitingChild, 2)], v.want[3 := -1], 2)
  {
    hide Inv;
    OneWaitsInv();
    var v := OneWaits();
    assert Attended(v.procs, v.kids, v.threads, v.want, 2);
    assert Waiting(v.threads[2]) && OtherWaits(v.threads, 2);
    BlockKeepsIff(v.procs, v.kids, v.threads, v.want, 3, -1, 2);
  }

  // ------------------------------------------------------ an orphan arrives

  /** Below the kernel's process 1 stand 2, its child 3, and the zombie 4, child of 3.
      Thread 1 of the kernel's process waits for any child, thread 3 of process 3 runs. */
  function KernelWaits(): View
  {
    View(map[1 := Proc(0, false, 0, 2, 0, 0, 1), 2 := Proc(1, false, 1, 3, 0, 0, 0),
             3 := Proc(2, false, 2, 4, 0, 0, 0), 4 := Proc(3, true, 3, 0, 0, 7, 0)],
         map[1 := [2], 2 := [3], 3 := [4], 4 := []],
         map[1 := Thr(R.WaitingChild, 1), 2 := Thr(R.Ready, 2), 3 := Thr(R.Running, 3)], 4, map[1 := -1])
  }

  lemma KernelWaitsFamily()
    ensures var v := KernelWaits(); Family(v.procs, v.kids, 1)
  {
    var t, kids := KernelWaits().procs, KernelWaits().kids;
    assert LinkAt(t, [2], 1, 0) && LinkAt(t, [3], 2, 0) && LinkAt(t, [4], 3, 0);
    assert kids[1] == [2] && kids[2] == [3] && kids[3] == [4] && kids[4] == [];
    assert Links(t, kids[1], 1) && Links(t, kids[2], 2) && Links(t, kids[3], 3) && Links(t, kids[4], 4);
    assert Kept(t, kids, 1, 1) && Kept(t, kids, 1, 2) && Kept(t, kids, 1, 3) && Kept(t, kids, 1, 4);
  }

  lemma KernelWaitsInv()
    ensures var v := KernelWaits(); Inv(v.procs, v.kids, v.threads, map[3 := 7], {}, v.nextPid, 1)
  {
    KernelWaitsFamily();
    KernelWaitsPids();
    KernelWaitsHistory();
    KernelWaitsThreads();
    hide Family, Pids, History, Alive, Waiters;
  }

  lemma KernelWaitsThreads()
    ensures var v := KernelWaits(); Alive(v.procs, v.threads) && Waiters(v.procs, v.threads)
  {
  }

  lemma KernelWaitsPids()
    ensures Pids(KernelWaits().procs, 1, 4)
  {
    var t := KernelWaits().procs;
    assert t.Keys == {1, 2, 3, 4};
    assert Older(t, 1, 1) && Older(t, 1, 2) && Older(t, 1, 3) && Older(t, 1, 4);
  }

  lemma KernelWaitsHistory()
    ensures History(KernelWaits().procs, map[3 := 7], {}, 4)
  {
    var t := KernelWaits().procs;
    assert t[4].zombie && t[4].pid == 3 && IsZombie(t, 3);
  }

  /** When process 3 exits, the kernel's process inherits the zombie, and its waiting
      thread is not told. */
  lemma OrphanArrives(t': Table, kids': Kids, thr': Threads)
    requires var v := KernelWaits();
             && Exits(v.procs, t', 1, 3, 0) && KidsLeft(v.kids, kids', 1, 3) && Released(v.threads, thr', 3, 0)
             && Family(t', kids', 1)
    ensures var v := KernelWaits();
            && Inv(v.procs, v.kids, v.threads, map[3 := 7], {}, v.nextPid, 1) && Attentive(v, 1)
            && !Attends(t', kids', thr', v.want, 1)
  {
    hide Inv, Family, Exits, KidsLeft, Released;
    KernelWaitsInv();
    KernelWaitsFamily();
    var v := KernelWaits();
    assert Attended(v.procs, v.kids, v.threads, v.want, 1);
    assert v.kids[3][0] == 4 && v.procs[4].zombie && Matches(v.procs[4], -1);
    assert WaitsForOrphan(v.procs, v.kids, v.threads, v.want, 1, 3);
    OrphansIff(v.procs, t', v.kids, kids', v.threads, thr', v.want, 1, 3, 0);
  }
}
