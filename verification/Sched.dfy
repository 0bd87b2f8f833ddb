/** kernel/thread/thread.c: the circular list of threads, its reaper and the
    round-robin scheduler. context_switch is the change of `current`. */
module Sched {
  import opened Ring

  function Restrict<V>(m: map<Tid, V>, r: seq<Tid>): map<Tid, V>
  {
    map t | t in m && t in r :: m[t]
  }

  /** The running thread goes back among the ready ones. */
  function Yielded(state: map<Tid, State>, current: Tid): map<Tid, State>
    requires current in state
  {
    if state[current] == Running then state[current := Ready] else state
  }

  ghost predicate OneRunning(state: map<Tid, State>, current: Tid)
  {
    forall t :: t in state && state[t] == Running ==> t == current
  }

  ghost predicate Exactly(r: seq<Tid>, k: set<Tid>)
  {
    forall t :: t in r <==> t in k
  }

  /** The links form one ring that holds `current`, the records are those of its
      threads, and nothing but `current` is running. */
  ghost predicate Well(next: map<Tid, Tid>, state: map<Tid, State>, process: map<Tid, nat>, r: seq<Tid>, current: Tid)
    ensures Well(next, state, process, r, current) ==> r != [] && current in r && current in state
  {
    && Cycle(next, r) && current in r && Exactly(r, next.Keys) && state.Keys == next.Keys == process.Keys
    && OneRunning(state, current)
  }

  lemma WellAt(next: map<Tid, Tid>, state: map<Tid, State>, process: map<Tid, nat>, r: seq<Tid>, current: Tid, i: nat)
    requires Well(next, state, process, r, current) && i < |r|
    ensures r[i] in next && r[i] in state && r[i] in process && next[r[i]] == Succ(r, i) && Distinct(r)
  {
    assert Follows(next, r, i);
  }

  lemma WellParts(next: map<Tid, Tid>, state: map<Tid, State>, process: map<Tid, nat>, r: seq<Tid>, current: Tid)
    requires Well(next, state, process, r, current)
    ensures Distinct(r) && Exactly(r, state.Keys)
  {
  }

  lemma Members(r: seq<Tid>, i: nat)
    requires i < |r|
    ensures forall t :: t in r <==> t in Without(r, i) || t == r[i]
    ensures Distinct(r) ==> r[i] !in Without(r, i)
  {
    var s := Without(r, i);
    forall t | t in r ensures t in s || t == r[i] {
      var k :| 0 <= k < |r| && r[k] == t;
      if k < i { assert s[k] == t; } else if k > i { assert s[k - 1] == t; }
    }
  }

  /** Unlinking and freeing the thread at position `i`. */
  lemma WellCut(next: map<Tid, Tid>, state: map<Tid, State>, process: map<Tid, nat>, r: seq<Tid>, current: Tid, i: nat)
    requires Well(next, state, process, r, current) && i < |r| && r[i] != current
    ensures |r| >= 2 && r[i] in next && r[i] !in Without(r, i) && Nearer(r, Without(r, i), current)
    ensures Well(next[Pred(r, i) := next[r[i]]] - {r[i]}, state - {r[i]}, process - {r[i]}, Without(r, i), current)
  {
    hide Nearer, Dist;
    WellAt(next, state, process, r, current, i);
    CutCycle(next, r, i);
    CutNearer(r, i, current);
    Members(r, i);
    hide Cycle;
    var next' := next[Pred(r, i) := next[r[i]]] - {r[i]};
    assert Pred(r, i) in r;
    assert next'.Keys == next.Keys - {r[i]};
  }

  lemma WellGrow(next: map<Tid, Tid>, state: map<Tid, State>, process: map<Tid, nat>, r: seq<Tid>, current: Tid, t: Tid,
                 proc: nat)
    requires Well(next, state, process, r, current) && t !in r
    ensures Well(next[r[|r| - 1] := t][t := r[0]], state[t := Ready], process[t := proc], r + [t], current)
  {
    GrowCycle(next, r, t);
    hide Cycle;
    assert r[|r| - 1] in r;
  }

  /** A change of states alone keeps the ring. */
  lemma WellState(next: map<Tid, Tid>, state: map<Tid, State>, process: map<Tid, nat>, r: seq<Tid>, current: Tid,
                  state': map<Tid, State>, current': Tid)
    requires Well(next, state, process, r, current) && state'.Keys == state.Keys && current' in r
    requires OneRunning(state', current')
    ensures Well(next, state', process, r, current')
  {
    hide Cycle, Exactly;
  }

  lemma RestrictAll<V>(m: map<Tid, V>, r: seq<Tid>)
    requires Exactly(r, m.Keys)
    ensures Restrict(m, r) == m
  {
  }

  lemma RestrictLess<V>(m: map<Tid, V>, r: seq<Tid>, i: nat)
    requires i < |r| && r[i] !in Without(r, i)
    ensures Restrict(m, r) - {r[i]} == Restrict(m, Without(r, i))
  {
    Members(r, i);
  }

  /** What a call of schedule amounts to, thread by thread; `state` are the states it
      starts from. */
  ghost predicate Rescheduled(r0: seq<Tid>, state: map<Tid, State>, c0: Tid, halted: bool, r: seq<Tid>,
                              state': map<Tid, State>, c: Tid)
  {
    && r0 != [] && Exactly(r0, state.Keys) && Exactly(r, state'.Keys) && c0 in r && c in r
    && (forall t :: t in r ==> t in r0)
    && (forall t :: t in r0 ==> Stays(r0, state, c0, r, t))
    && (halted <==> state[c0] != Running && forall t :: t in r ==> state[t] != Ready)
    && (halted ==> c == c0)
    && (!halted ==> state'[c] == Running && (state[c] == Ready || (c == c0 && state[c] == Running)))
    && (halted || c != c0 ==> state'[c0] == if state[c0] == Running then Ready else state[c0])
    && (forall t :: t in r && t != c0 && t != c ==> state'[t] == state[t])
    && (!halted ==>
          forall i, j :: 0 <= i < |r| && 0 <= j < |r| && r[i] == c0 && r[j] == c ==> NoneBetween(r, state, i, j))
  }

  /** The reaper frees a dead thread that is not current, unless the head is one too:
      then it frees the head and stops. */
  ghost predicate Stays(r0: seq<Tid>, state: map<Tid, State>, c0: Tid, r: seq<Tid>, t: Tid)
    requires r0 != [] && r0[0] in state && t in state
  {
    t in r <==> if state[r0[0]] == Dead && r0[0] != c0 then t != r0[0] else state[t] != Dead || t == c0
  }

  lemma RescheduledFacts(r0: seq<Tid>, state: map<Tid, State>, c0: Tid, halted: bool, r: seq<Tid>,
                         state': map<Tid, State>, c: Tid)
    requires Rescheduled(r0, state, c0, halted, r, state', c)
    ensures c0 in state' && c in state' && c in state && c0 in state
    ensures state[c0] == Running ==> !halted && state'[c0] == if c == c0 then Running else Ready
    ensures forall t :: t in r && t != c && t != c0 ==> t in state' && t in state && state'[t] == state[t]
    ensures !halted && c != c0 ==> state[c] == Ready && state'[c] == Running
  {
    hide Stays, NoneBetween;
  }

  /** No thread strictly after position `i` and before position `j` is ready. */
  ghost predicate NoneBetween(r: seq<Tid>, state: map<Tid, State>, i: int, j: int)
  {
    forall k :: 0 <= k < |r| && (if i < j then i < k < j else i < k || k < j) ==> r[k] in state && state[r[k]] != Ready
  }

  class Scheduler {
    var next: map<Tid, Tid>
    var state: map<Tid, State>
    var process: map<Tid, nat>
    var head: Tid
    var current: Tid
    ghost var ring: seq<Tid>

    ghost predicate Valid()
      reads this
    {
      Well(next, state, process, ring, current) && head == ring[0]
    }

    ghost function Seen(): View
      reads this
    {
      View(ring, state, process, current)
    }

    /** thread_init */
    constructor (main: Tid, kernel: nat)
      ensures Valid() && ring == [main] && current == main && state == map[main := Running]
      ensures process == map[main := kernel]
    {
      next := map[main := main];
      state := map[main := Running];
      process := map[main := kernel];
      head, current := main, main;
      ring := [main];
    }

    /** The walk to the thread before the head. */
    method Tail() returns (tail: Tid)
      requires Valid()
      ensures tail == ring[|ring| - 1]
    {
      hide Well;
      tail := head;
      ghost var i := 0;
      WellAt(next, state, process, ring, current, i);
      while next[tail] != head
        invariant 0 <= i < |ring| && tail == ring[i] && tail in next && next[tail] == Succ(ring, i) && Distinct(ring)
        decreases |ring| - i
      {
        tail := next[tail];
        i := i + 1;
        WellAt(next, state, process, ring, current, i);
      }
    }

    /** thread_create_process and thread_create_user: the new thread joins at the
        tail, ready. */
    method Create(t: Tid, proc: nat)
      requires Valid() && t !in ring
      modifies this`next, this`state, this`process, this`ring
      ensures Valid() && ring == old(ring) + [t] && state == old(state)[t := Ready]
      ensures process == old(process)[t := proc]
    {
      hide Well;
      var tail := Tail();
      WellGrow(next, state, process, ring, current, t, proc);
      state := state[t := Ready];
      process := process[t := proc];
      next := next[tail := t];
      next := next[t := head];
      ring := ring + [t];
    }

    /** Unlinks and frees the thread at position `i`. */
    method Unlink(prev: Tid, curr: Tid, ghost i: nat)
      requires Well(next, state, process, ring, current) && i < |ring| && curr == ring[i] != current
      requires prev == Pred(ring, i)
      modifies this`next, this`state, this`process, this`ring
      ensures Well(next, state, process, ring, current) && ring == Without(old(ring), i)
      ensures Nearer(old(ring), ring, current)
      ensures state == old(state) - {curr} && process == old(process) - {curr} && curr !in ring && |old(ring)| >= 2
    {
      hide Well, Nearer;
      WellCut(next, state, process, ring, current, i);
      next := next[prev := next[curr]];
      next := next - {curr};
      state := state - {curr};
      process := process - {curr};
      ring := Without(ring, i);
    }

    /** reap_dead_threads: exactly what Reaped says is left stays in the ring, the
        rest is freed, and no thread moves away from the running one. */
    method Reap()
      requires Valid()
      modifies this`next, this`state, this`process, this`head, this`ring
      ensures Valid() && ring == Reaped(old(ring), old(state), current) && Nearer(old(ring), ring, current)
      ensures state == Restrict(old(state), ring) && process == Restrict(old(process), ring)
    {
      hide Well, Living, Nearer, Restrict;
      var prev := Tail();
      ghost var r := ring;
      WellAt(next, state, process, ring, current, 0);
      WellRestrict(next, state, process, ring, current);
      var curr := head;
      if state[curr] == Dead && curr != current {
        // the first turn of the loop; it then stands at the new head and stops
        var nextNode := next[curr];
        Unlink(prev, curr, 0);
        RestrictLess(old(state), r, 0);
        RestrictLess(old(process), r, 0);
        assert Without(r, 0) == r[1..];
        head := nextNode;
      } else {
        ReapRest(prev);
      }
    }

    /** The reaper's loop when the head stays. */
    method ReapRest(tail: Tid)
      requires Valid() && !Gone(state, current, head) && tail == ring[|ring| - 1]
      modifies this`next, this`state, this`process, this`ring
      ensures Valid() && ring == Living(old(ring), old(state), current) && Nearer(old(ring), ring, current)
      ensures state == Restrict(old(state), ring) && process == Restrict(old(process), ring)
    {
      hide Well, Living, Nearer, Restrict, Midway;
      ghost var r0, s0, p0 := ring, state, process;
      var curr, prev, start := head, tail, head;
      ghost var j := 0;
      Start(next, s0, p0, r0, current);
      var done := false;
      while !done
        invariant 0 <= j <= |r0| && (done <==> j == |r0|) && head == start == r0[0]
        invariant Midway(r0, s0, p0, j, next, state, process, ring, current, prev)
        invariant !done ==> curr == r0[j]
        decreases |r0| - j
      {
        ghost var i := |Living(r0[..j], s0, current)|;
        Here(r0, s0, p0, j, next, state, process, ring, current, prev);
        var nextNode := next[curr];
        if state[curr] == Dead && curr != current {
          ghost var n1, s1, p1, r1 := next, state, process, ring;
          Unlink(prev, curr, i);
          TurnCut(r0, s0, p0, j, n1, s1, p1, r1, next, state, process, ring, current, prev);
        } else {
          TurnKeep(r0, s0, p0, j, next, state, process, ring, current, prev);
          prev := curr;
        }
        j := j + 1;
        curr := nextNode;
        if curr == start { done := true; }
      }
      Finish(r0, s0, p0, next, state, process, ring, current, prev);
    }

    /** schedule: reap, put the running thread back among the ready ones, and run
        the first ready thread after it. It halts exactly when no thread of the
        ring is ready. */
    method Schedule() returns (halted: bool)
      requires Valid()
      modifies this`next, this`state, this`process, this`head, this`current, this`ring
      ensures Valid() && ring == Reaped(old(ring), old(state), old(current)) && Nearer(old(ring), ring, old(current))
      ensures process == Restrict(old(process), ring)
      ensures old(current) in ring && old(current) in Restrict(old(state), ring)
      ensures var c := IndexOf(ring, old(current));
              var ready := Yielded(Restrict(old(state), ring), old(current));
              if halted then NoneReady(ring, ready, c) && current == old(current) && state == ready
              else Switch(ring, ready, c, current, state)
      ensures Rescheduled(old(ring), old(state), old(current), halted, ring, state, current)
      ensures old(current) in old(state) && old(current) in state && current in old(state) && current in state
      ensures old(state)[old(current)] == Running ==>
                !halted && state[old(current)] == if current == old(current) then Running else Ready
      ensures forall t :: t in ring && t != current && t != old(current) ==>
                t in state && t in old(state) && state[t] == old(state)[t]
      ensures !halted && current != old(current) ==> old(state)[current] == Ready && state[current] == Running
    {
      hide Well, Nearer, Reaped, Restrict, Switch, NoneReady, Rescheduled;
      WellParts(next, state, process, ring, current);
      Reap();
      YieldedWell(next, state, process, ring, current);
      if state[current] == Running { state := state[current := Ready]; }
      halted := Pick(IndexOf(ring, current));
      ScheduleMeans(old(Seen()), old(state), halted, Seen());
      RescheduledFacts(old(ring), old(state), old(current), halted, ring, state, current);
    }

    /** The search for a ready thread, and the switch to it. */
    method Pick(ghost c: nat) returns (halted: bool)
      requires Valid() && c < |ring| && ring[c] == current && forall t :: t in state ==> state[t] != Running
      modifies this`state, this`current
      ensures Valid()
      ensures if halted then NoneReady(ring, state, c) && current == old(current) && state == old(state)
              else Switch(ring, old(state), c, current, state)
    {
      hide Well, Switch, Chosen, NoneReady, NoneBefore, Step;
      ghost var d := 1;
      WellStep(next, state, process, ring, current, c, 0);
      NoneYet(ring, state, c);
      var nxt := next[current];
      while state[nxt] != Ready
        modifies {}
        invariant 1 <= d <= |ring| && nxt == Step(ring, c, d) && nxt in state && NoneBefore(ring, state, c, d)
        decreases |ring| - d
      {
        WellAround(next, state, process, ring, current, c, d);
        NoneMore(ring, state, c, d);
        // the running thread was put among the ready ones before, so coming round
        // to it here means that it is not ready either
        if nxt == current { return true; }
        WellStep(next, state, process, ring, current, c, d);
        nxt := next[nxt];
        d := d + 1;
      }
      FirstReady(ring, state, c, d);
      SwitchWell(next, state, process, ring, current, c, d);
      Switches(ring, state, c, d);
      current := nxt;
      state := state[current := Running];
      return false;
    }

    /** The running thread stops running: thread_exit marks it dead,
        thread_block_on_process waiting for a child, the terminal blocked. */
    method Leave(s: State) returns (halted: bool)
      requires Valid() && s != Running
      modifies this`next, this`state, this`process, this`head, this`current, this`ring
      ensures Valid() && ring == Reaped(old(ring), old(state)[old(current) := s], old(current))
      ensures Nearer(old(ring), ring, old(current))
      ensures process == Restrict(old(process), ring) && old(current) in ring && old(current) in old(state)
      ensures var c := IndexOf(ring, old(current));
              var ready := Restrict(old(state)[old(current) := s], ring);
              if halted then NoneReady(ring, ready, c) && current == old(current) && state == ready
              else Switch(ring, ready, c, current, state)
      ensures Rescheduled(old(ring), old(state)[old(current) := s], old(current), halted, ring, state, current)
    {
      hide Well, Nearer, Reaped, Switch, NoneReady, Rescheduled, Exactly, Restrict, Yielded, IndexOf;
      LeftWell(next, state, process, ring, current, s);
      state := state[current := s];
      halted := Schedule();
      LeftRunning(old(ring), old(state), ring, old(current), s);
    }

    /** thread_wake_waiter: only a thread that waits for a child becomes ready. */
    method Wake(t: Tid)
      requires Valid() && t in ring
      modifies this`state
      ensures Valid() && t in old(state)
      ensures state == if old(state)[t] == WaitingChild then old(state)[t := Ready] else old(state)
    {
      hide Well;
      WellAt(next, state, process, ring, current, IndexOf(ring, t));
      WokenWell(next, state, process, ring, current, t);
      if state[t] == WaitingChild {
        state := state[t := Ready];
      }
    }

    /** thread_terminate_process: exactly the threads of `proc` die. */
    method Terminate(proc: nat)
      requires Valid()
      modifies this`state
      ensures Valid() && state.Keys == old(state).Keys
      ensures forall t :: t in state ==> t in process && state[t] == if process[t] == proc then Dead else old(state)[t]
    {
      hide Well, Killed;
      ghost var s0 := state;
      KeysSame(next, state, process, ring, current);
      var start, curr := head, head;
      ghost var i := 0;
      WellAt(next, state, process, ring, current, 0);
      KilledNone(s0, process, proc, ring);
      while true
        modifies this`state
        invariant 0 <= i < |ring| && curr == ring[i] && Killed(s0, state, process, proc, ring[..i])
        decreases |ring| - i
      {
        WellAt(next, s0, process, ring, current, i);
        KilledMore(s0, state, process, proc, ring, i);
        if process[curr] == proc { state := state[curr := Dead]; }
        curr := next[curr];
        i := i + 1;
        if curr == start { break; }
      }
      assert ring[..i] == ring;
      KilledAll(next, s0, state, process, proc, ring, current);
    }
  }

  /** The threads of `proc` among `done` are dead, the others as they were. */
  ghost predicate Killed(s0: map<Tid, State>, state: map<Tid, State>, process: map<Tid, nat>, proc: nat, done: seq<Tid>)
  {
    && state.Keys == s0.Keys
    && forall t :: t in state ==> state[t] == if t in done && t in process && process[t] == proc then Dead else s0[t]
  }

  lemma KilledNone(s0: map<Tid, State>, process: map<Tid, nat>, proc: nat, r: seq<Tid>)
    ensures Killed(s0, s0, process, proc, r[..0])
  {
  }

  lemma KilledMore(s0: map<Tid, State>, state: map<Tid, State>, process: map<Tid, nat>, proc: nat, r: seq<Tid>, i: nat)
    requires i < |r| && Killed(s0, state, process, proc, r[..i]) && r[i] in s0 && r[i] in process
    ensures Killed(s0, if process[r[i]] == proc then state[r[i] := Dead] else state, process, proc, r[..i + 1])
  {
    assert r[..i + 1] == r[..i] + [r[i]];
    assert r[i] in state.Keys;
    if process[r[i]] == proc { assert state[r[i] := Dead].Keys == state.Keys; }
  }

  lemma KilledAll(next: map<Tid, Tid>, s0: map<Tid, State>, state: map<Tid, State>, process: map<Tid, nat>, proc: nat,
                  r: seq<Tid>, current: Tid)
    requires Well(next, s0, process, r, current) && Killed(s0, state, process, proc, r)
    ensures Well(next, state, process, r, current) && state.Keys == s0.Keys
    ensures forall t :: t in state ==> t in process && state[t] == if process[t] == proc then Dead else s0[t]
  {
    hide Well;
    KeysSame(next, s0, process, r, current);
    DeadWell(next, s0, process, r, current, state);
  }

  lemma KeysSame(next: map<Tid, Tid>, state: map<Tid, State>, process: map<Tid, nat>, r: seq<Tid>, current: Tid)
    requires Well(next, state, process, r, current)
    ensures forall t :: t in state <==> t in r
    ensures forall t :: t in state <==> t in process
  {
    hide Cycle;
    assert forall t :: t in state <==> t in state.Keys;
    assert forall t :: t in process <==> t in process.Keys;
  }

  lemma DeadWell(next: map<Tid, Tid>, state: map<Tid, State>, process: map<Tid, nat>, r: seq<Tid>, current: Tid,
                 state': map<Tid, State>)
    requires Well(next, state, process, r, current) && state'.Keys == state.Keys
    requires forall t :: t in state' ==> state'[t] == Dead || state'[t] == state[t]
    ensures Well(next, state', process, r, current)
  {
    WellState(next, state, process, r, current, state', current);
  }

  lemma WokenWell(next: map<Tid, Tid>, state: map<Tid, State>, process: map<Tid, nat>, r: seq<Tid>, current: Tid,
                  t: Tid)
    requires Well(next, state, process, r, current) && t in state
    ensures Well(next, state[t := Ready], process, r, current)
  {
    assert state[t := Ready].Keys == state.Keys;
    WellState(next, state, process, r, current, state[t := Ready], current);
  }

  lemma LeftWell(next: map<Tid, Tid>, state: map<Tid, State>, process: map<Tid, nat>, r: seq<Tid>, current: Tid,
                 s: State)
    requires Well(next, state, process, r, current) && s != Running
    ensures Well(next, state[current := s], process, r, current)
  {
    assert state[current := s].Keys == state.Keys;
    WellState(next, state, process, r, current, state[current := s], current);
  }

  lemma YieldedWell(next: map<Tid, Tid>, state: map<Tid, State>, process: map<Tid, nat>, r: seq<Tid>, current: Tid)
    requires Well(next, state, process, r, current)
    ensures Well(next, Yielded(state, current), process, r, current)
    ensures forall t :: t in Yielded(state, current) ==> Yielded(state, current)[t] != Running
  {
    assert Yielded(state, current).Keys == state.Keys;
    WellState(next, state, process, r, current, Yielded(state, current), current);
  }

  /** `t` is the first ready thread after position `c`, and now runs. */
  ghost predicate Switch(r: seq<Tid>, ready: map<Tid, State>, c: nat, t: Tid, state: map<Tid, State>)
    requires c < |r|
  {
    exists d: nat :: Chosen(r, ready, c, d) && t == Step(r, c, d) && state == ready[t := Running]
  }

  lemma Switches(r: seq<Tid>, ready: map<Tid, State>, c: nat, d: nat)
    requires c < |r| && Chosen(r, ready, c, d)
    ensures Switch(r, ready, c, Step(r, c, d), ready[Step(r, c, d) := Running])
  {
    hide Step;
  }

  ghost predicate NoneBefore(r: seq<Tid>, state: map<Tid, State>, c: nat, d: nat)
    requires c < |r| && d <= |r|
  {
    forall e :: 1 <= e < d ==> !IsReady(state, Step(r, c, e))
  }

  lemma NoneYet(r: seq<Tid>, state: map<Tid, State>, c: nat)
    requires c < |r|
    ensures NoneBefore(r, state, c, 1)
  {
  }

  lemma NoneMore(r: seq<Tid>, state: map<Tid, State>, c: nat, d: nat)
    requires c < |r| && 1 <= d <= |r| && NoneBefore(r, state, c, d) && !IsReady(state, Step(r, c, d))
    ensures if d == |r| then NoneReady(r, state, c) else NoneBefore(r, state, c, d + 1)
  {
  }

  lemma FirstReady(r: seq<Tid>, state: map<Tid, State>, c: nat, d: nat)
    requires c < |r| && 1 <= d <= |r| && NoneBefore(r, state, c, d) && IsReady(state, Step(r, c, d))
    ensures Chosen(r, state, c, d)
  {
  }

  /** Following the link from `d` steps ahead leads `d + 1` steps ahead. */
  lemma WellStep(next: map<Tid, Tid>, state: map<Tid, State>, process: map<Tid, nat>, r: seq<Tid>, current: Tid, c: nat,
                 d: nat)
    requires Well(next, state, process, r, current) && c < |r| && r[c] == current && d < |r|
    ensures Step(r, c, d) in next && next[Step(r, c, d)] == Step(r, c, d + 1) && Step(r, c, d + 1) in state
    ensures Step(r, c, 0) == current
  {
    hide Well;
    var k := if c + d < |r| then c + d else c + d - |r|;
    WellAt(next, state, process, r, current, k);
    WellAt(next, state, process, r, current, if k + 1 < |r| then k + 1 else 0);
  }

  lemma WellAround(next: map<Tid, Tid>, state: map<Tid, State>, process: map<Tid, nat>, r: seq<Tid>, current: Tid,
                   c: nat, d: nat)
    requires Well(next, state, process, r, current) && c < |r| && r[c] == current && 1 <= d <= |r|
    ensures Step(r, c, d) == current <==> d == |r|
  {
    hide Well;
    WellAt(next, state, process, r, current, c);
  }

  lemma SwitchWell(next: map<Tid, Tid>, ready: map<Tid, State>, process: map<Tid, nat>, r: seq<Tid>, current: Tid,
                   c: nat, d: nat)
    requires Well(next, ready, process, r, current) && c < |r| && d <= |r| && Step(r, c, d) in ready
    requires forall t :: t in ready ==> ready[t] != Running
    ensures Well(next, ready[Step(r, c, d) := Running], process, r, Step(r, c, d))
  {
    var n := Step(r, c, d);
    assert ready[n := Running].Keys == ready.Keys;
    WellState(next, ready, process, r, current, ready[n := Running], n);
  }

  /** The reaper has done the first `j` threads of `r0`. */
  ghost predicate Midway(r0: seq<Tid>, s0: map<Tid, State>, p0: map<Tid, nat>, j: nat,
                         next: map<Tid, Tid>, state: map<Tid, State>, process: map<Tid, nat>, r: seq<Tid>, current: Tid,
                         prev: Tid)
    requires j <= |r0|
  {
    var kept := Living(r0[..j], s0, current);
    && Well(next, state, process, r, current) && r == kept + r0[j..] && Distinct(r0) && Nearer(r0, r, current)
    && state == Restrict(s0, r) && process == Restrict(p0, r)
    && r0 != [] && r[0] == r0[0] && !Gone(s0, current, r0[0])
    && (if j == 0 then prev == r[|r| - 1] else kept != [] && prev == kept[|kept| - 1])
  }

  lemma Start(next: map<Tid, Tid>, s0: map<Tid, State>, p0: map<Tid, nat>, r0: seq<Tid>, current: Tid)
    requires Well(next, s0, p0, r0, current) && !Gone(s0, current, r0[0])
    ensures Midway(r0, s0, p0, 0, next, s0, p0, r0, current, r0[|r0| - 1])
  {
    hide Well, Nearer, Restrict;
    WellAt(next, s0, p0, r0, current, 0);
    WellRestrict(next, s0, p0, r0, current);
    NearerRefl(r0, current);
    NoneKept(s0, current);
  }

  /** Where the reaper stands, and where it goes next. */
  lemma Here(r0: seq<Tid>, s0: map<Tid, State>, p0: map<Tid, nat>, j: nat,
             next: map<Tid, Tid>, state: map<Tid, State>, process: map<Tid, nat>, r: seq<Tid>, current: Tid, prev: Tid)
    requires j < |r0| && Midway(r0, s0, p0, j, next, state, process, r, current, prev)
    ensures var i := |Living(r0[..j], s0, current)|;
            && Well(next, state, process, r, current) && i < |r| && r[i] == r0[j] && prev == Pred(r, i)
            && r0[j] in next && r0[j] in state && r0[j] in s0 && state[r0[j]] == s0[r0[j]]
            && next[r0[j]] == (if j + 1 < |r0| then r0[j + 1] else r0[0]) && (j + 1 < |r0| ==> r0[j + 1] != r0[0])
  {
    hide Well, Nearer, Restrict, Living;
    var kept := Living(r0[..j], s0, current);
    NoneKept(s0, current);
    assert r0[..0] == [];
    Turn(r0, j, kept, r);
    WellAt(next, state, process, r, current, |kept|);
    StateKept(s0, r, r0[j]);
  }

  lemma TurnKeep(r0: seq<Tid>, s0: map<Tid, State>, p0: map<Tid, nat>, j: nat,
                 next: map<Tid, Tid>, state: map<Tid, State>, process: map<Tid, nat>, r: seq<Tid>, current: Tid,
                 prev: Tid)
    requires j < |r0| && Midway(r0, s0, p0, j, next, state, process, r, current, prev) && !Gone(s0, current, r0[j])
    ensures Midway(r0, s0, p0, j + 1, next, state, process, r, current, r0[j])
  {
    hide Well, Nearer, Restrict, Living;
    Turn(r0, j, Living(r0[..j], s0, current), r);
    LivingLast(r0[..j], r0[j], s0, current);
  }

  lemma TurnCut(r0: seq<Tid>, s0: map<Tid, State>, p0: map<Tid, nat>, j: nat,
                n1: map<Tid, Tid>, s1: map<Tid, State>, p1: map<Tid, nat>, r: seq<Tid>,
                next: map<Tid, Tid>, state: map<Tid, State>, process: map<Tid, nat>, r': seq<Tid>, current: Tid,
                prev: Tid)
    requires j < |r0| && Gone(s0, current, r0[j]) && Midway(r0, s0, p0, j, n1, s1, p1, r, current, prev)
    requires var i := |Living(r0[..j], s0, current)|; i < |r| && r' == Without(r, i)
    requires Well(next, state, process, r', current) && Nearer(r, r', current) && r0[j] !in r'
    requires state == s1 - {r0[j]} && process == p1 - {r0[j]}
    ensures Midway(r0, s0, p0, j + 1, next, state, process, r', current, prev)
  {
    hide Well, Nearer, Restrict, Living, Without, Succ, Pred;
    var kept := Living(r0[..j], s0, current);
    Turn(r0, j, kept, r);
    LivingLast(r0[..j], r0[j], s0, current);
    NearerTrans(r0, r, r', current);
    RestrictLess(s0, r, |kept|);
    RestrictLess(p0, r, |kept|);
  }

  lemma Finish(r0: seq<Tid>, s0: map<Tid, State>, p0: map<Tid, nat>,
               next: map<Tid, Tid>, state: map<Tid, State>, process: map<Tid, nat>, r: seq<Tid>, current: Tid,
               prev: Tid)
    requires Midway(r0, s0, p0, |r0|, next, state, process, r, current, prev)
    ensures Well(next, state, process, r, current) && r == Living(r0, s0, current) && Nearer(r0, r, current)
    ensures r[0] == r0[0]
    ensures state == Restrict(s0, r) && process == Restrict(p0, r)
  {
    hide Well, Nearer, Restrict, Living;
    assert r0[..|r0|] == r0 && r0[|r0|..] == [];
  }

  /** One turn of the reaper, on sequences. */
  lemma Turn(r0: seq<Tid>, j: nat, kept: seq<Tid>, r: seq<Tid>)
    requires j < |r0| && r == kept + r0[j..]
    ensures |kept| < |r| && r[|kept|] == r0[j] && r0[..j + 1] == r0[..j] + [r0[j]]
    ensures Without(r, |kept|) == kept + r0[j + 1..] && r == (kept + [r0[j]]) + r0[j + 1..]
    ensures Succ(r, |kept|) == if j + 1 < |r0| then r0[j + 1] else r[0]
    ensures Pred(r, |kept|) == if kept == [] then r[|r| - 1] else kept[|kept| - 1]
  {
    hide Without, Succ, Pred;
    var rest := r0[j + 1..];
    assert r0[j..] == [r0[j]] + rest;
    assert r == kept + ([r0[j]] + rest);
    TurnSeq(kept, r0[j], rest);
  }

  lemma TurnSeq(kept: seq<Tid>, t: Tid, rest: seq<Tid>)
    ensures var r := kept + ([t] + rest);
            && Without(r, |kept|) == kept + rest && r == (kept + [t]) + rest
            && Succ(r, |kept|) == (if rest != [] then rest[0] else r[0])
            && Pred(r, |kept|) == (if kept == [] then r[|r| - 1] else kept[|kept| - 1])
  {
  }

  lemma NoneKept(s: map<Tid, State>, current: Tid)
    ensures Living([], s, current) == []
  {
  }

  lemma StateKept(s: map<Tid, State>, r: seq<Tid>, t: Tid)
    ensures t in Restrict(s, r) ==> t in s && Restrict(s, r)[t] == s[t]
  {
  }

  lemma WellRestrict(next: map<Tid, Tid>, state: map<Tid, State>, process: map<Tid, nat>, r: seq<Tid>, current: Tid)
    requires Well(next, state, process, r, current)
    ensures Restrict(state, r) == state && Restrict(process, r) == process
  {
    RestrictAll(state, r);
    RestrictAll(process, r);
  }

  // -------------------------------------------------------------- whole runs

  /** What can happen between two looks at the ring. `Leave` is the running thread
      dying or blocking; `Yield` covers the timer and a thread killed before. */
  datatype Event = Yield | Leave(state: State) | Spawn(t: Tid, proc: nat) | Wake(t: Tid) | Kill(proc: nat)

  predicate Legal(e: Event)
  {
    e.Leave? ==> e.state == Dead || e.state == Blocked || e.state == WaitingChild
  }

  /** What the ring looks like from outside. */
  datatype View = View(r: seq<Tid>, state: map<Tid, State>, process: map<Tid, nat>, current: Tid)

  /** A call of schedule that finds the threads in `state`. */
  ghost predicate ScheduleDid(v: View, state: map<Tid, State>, halted: bool, v': View)
  {
    && v.r != [] && v'.r == Reaped(v.r, state, v.current) && v'.process == Restrict(v.process, v'.r)
    && v.current in v'.r && v.current in Restrict(state, v'.r)
    && var c, ready := IndexOf(v'.r, v.current), Yielded(Restrict(state, v'.r), v.current);
       if halted then NoneReady(v'.r, ready, c) && v'.current == v.current && v'.state == ready
       else Switch(v'.r, ready, c, v'.current, v'.state)
  }

  /** Every call of schedule, read thread by thread. */
  lemma ScheduleMeans(v: View, state: map<Tid, State>, halted: bool, v': View)
    requires ScheduleDid(v, state, halted, v') && Distinct(v.r) && Exactly(v.r, state.Keys)
    ensures Rescheduled(v.r, state, v.current, halted, v'.r, v'.state, v'.current)
  {
    hide Switch, NoneReady, Reaped, NoneBetween;
    var r, c0 := v'.r, v.current;
    StaysAll(v.r, state, c0);
    hide Stays, Distinct;
    var c := IndexOf(r, c0);
    var ready := Yielded(Restrict(state, r), c0);
    AllReady(r, ready, c);
    if halted {
    } else {
      SwitchMeans(r, ready, c, v'.current, v'.state);
      SkippedBetween(r, ready, state, c, v'.current);
    }
  }

  lemma SkippedBetween(r: seq<Tid>, ready: map<Tid, State>, state: map<Tid, State>, c: nat, t: Tid)
    requires c < |r| && Distinct(r) && forall j :: 0 <= j < |r| && r[j] == t ==> NoneBetween(r, ready, c, j)
    requires forall x :: x in r && x != r[c] && x in ready ==> x in state && state[x] == ready[x]
    ensures forall i, j :: 0 <= i < |r| && 0 <= j < |r| && r[i] == r[c] && r[j] == t ==> NoneBetween(r, state, i, j)
  {
    hide NoneBetween, IndexOf;
    forall i, j | 0 <= i < |r| && 0 <= j < |r| && r[i] == r[c] && r[j] == t ensures NoneBetween(r, state, i, j) {
      IndexUnique(r, i);
      IndexUnique(r, c);
      BetweenSame(r, ready, state, i, j);
    }
  }

  lemma StaysAll(r0: seq<Tid>, state: map<Tid, State>, c0: Tid)
    requires r0 != [] && Distinct(r0) && Exactly(r0, state.Keys)
    ensures Distinct(Reaped(r0, state, c0)) && (forall t :: t in Reaped(r0, state, c0) ==> t in r0)
    ensures forall t :: t in r0 ==> Stays(r0, state, c0, Reaped(r0, state, c0), t)
  {
    LivingMembers(r0, state, c0);
    LivingDistinct(r0, state, c0);
    forall t | t in r0 ensures Stays(r0, state, c0, Reaped(r0, state, c0), t) { ReapedStays(r0, state, c0, t); }
  }

  /** The search goes through the whole ring. */
  lemma AllReady(r: seq<Tid>, ready: map<Tid, State>, c: nat)
    requires c < |r| && Exactly(r, ready.Keys)
    ensures NoneReady(r, ready, c) <==> forall t :: t in r ==> ready[t] != Ready
  {
    if t :| t in r && ready[t] == Ready { SomeReady(r, ready, c, t); }
  }

  lemma SwitchMeans(r: seq<Tid>, ready: map<Tid, State>, c: nat, t: Tid, state: map<Tid, State>)
    requires c < |r| && Exactly(r, ready.Keys) && Distinct(r) && Switch(r, ready, c, t, state)
    ensures t in r && ready[t] == Ready && state == ready[t := Running]
    ensures forall j :: 0 <= j < |r| && r[j] == t ==> NoneBetween(r, ready, c, j)
  {
    var d: nat :| Chosen(r, ready, c, d) && t == Step(r, c, d) && state == ready[t := Running];
    forall j | 0 <= j < |r| && r[j] == t ensures NoneBetween(r, ready, c, j) {
      assert d == Distance(|r|, c, j);
      forall k | 0 <= k < |r| && (if c < j then c < k < j else c < k || k < j) ensures ready[r[k]] != Ready {
        StepDistance(r, c, k);
        assert Distance(|r|, c, k) < d;
        assert !IsReady(ready, Step(r, c, Distance(|r|, c, k)));
      }
    }
  }

  lemma BetweenSame(r: seq<Tid>, ready: map<Tid, State>, state: map<Tid, State>, i: nat, j: nat)
    requires i < |r| && j < |r| && Distinct(r) && NoneBetween(r, ready, i, j)
    requires forall t :: t in r && t != r[i] && t in ready ==> t in state && state[t] == ready[t]
    ensures NoneBetween(r, state, i, j)
  {
  }

  /** What an event does to the view. */
  ghost predicate Did(v: View, e: Event, halted: bool, v': View)
  {
    match e
    case Yield => ScheduleDid(v, v.state, halted, v')
    case Leave(st) => ScheduleDid(v, v.state[v.current := st], halted, v')
    case Spawn(t, proc) =>
      !halted && v' == if t in v.r then v else View(v.r + [t], v.state[t := Ready], v.process[t := proc], v.current)
    case Wake(t) =>
      !halted && v' == if t in v.state && v.state[t] == WaitingChild then v.(state := v.state[t := Ready]) else v
    case Kill(proc) =>
      && !halted && v' == v.(state := v'.state) && v'.state.Keys == v.state.Keys
      && forall t :: t in v.state ==> t in v.process && v'.state[t] == if v.process[t] == proc then Dead else v.state[t]
  }

  ghost predicate Traced(trace: seq<View>, events: seq<Event>, halted: bool)
  {
    && |trace| == |events| + 1
    && forall i :: 0 <= i < |events| ==> Did(trace[i], events[i], halted && i == |events| - 1, trace[i + 1])
  }

  lemma TraceMore(trace: seq<View>, events: seq<Event>, n: nat, halted: bool, v: View)
    requires n < |events| && Traced(trace, events[..n], false) && Did(trace[n], events[n], halted, v)
    ensures Traced(trace + [v], events[..n + 1], halted)
  {
    hide Did;
    var t := trace + [v];
    forall i | 0 <= i < n + 1 ensures Did(t[i], events[..n + 1][i], halted && i == n, t[i + 1]) {
      if i < n { assert Did(trace[i], events[..n][i], false && i == n - 1, trace[i + 1]); }
    }
  }

  /** One event. Addresses in use are not handed out again, and only threads are
      woken. */
  method Happen(s: Scheduler, e: Event) returns (halted: bool)
    requires s.Valid() && Legal(e)
    modifies s
    ensures s.Valid() && Did(old(s.Seen()), e, halted, s.Seen())
    ensures !halted && (e.Yield? || e.Leave?) ==> s.current in s.state && s.state[s.current] == Running
    ensures forall t :: t in old(s.ring) && Steady(old(s.state), old(s.process), old(s.current), e, t) ==>
              Progress(old(s.ring), old(s.current), s.ring, s.state, s.process, s.current, old(s.process), e, halted, t)
  {
    hide Well, Nearer, Reaped, Switch, NoneReady, Restrict, Steady, Progress, Yielded;
    halted := false;
    ghost var n0, s0, p0, r0, c0 := s.next, s.state, s.process, s.ring, s.current;
    match e {
      case Yield =>
        halted := s.Schedule();
        Scheduled(n0, s0, p0, r0, c0, s0, s.next, s.state, s.process, s.ring, s.current, e, halted);
      case Leave(st) =>
        halted := s.Leave(st);
        LeftWell(n0, s0, p0, r0, c0, st);
        LeftRunning(r0, s0, s.ring, c0, st);
        WellAt(n0, s0, p0, r0, c0, IndexOf(r0, c0));
        Scheduled(n0, s0, p0, r0, c0, s0[c0 := st], s.next, s.state, s.process, s.ring, s.current, e, halted);
      case Spawn(t, proc) =>
        WellIn(n0, s0, p0, r0, c0, t);
        if t !in s.next { s.Create(t, proc); }
        Spawned(n0, s0, p0, r0, c0, s.next, s.state, s.process, s.ring, e);
      case Wake(t) =>
        WellIn(n0, s0, p0, r0, c0, t);
        KeysSame(n0, s0, p0, r0, c0);
        if t in s.next { s.Wake(t); }
        Unmoved(n0, s0, p0, r0, c0, s.state, e);
      case Kill(proc) =>
        s.Terminate(proc);
        Unmoved(n0, s0, p0, r0, c0, s.state, e);
    }
  }

  /** `t` is ready and the event does not kill it, or it runs and yields. */
  ghost predicate Steady(state: map<Tid, State>, process: map<Tid, nat>, current: Tid, e: Event, t: Tid)
  {
    && t in state && t in process
    && if t == current then state[t] == Running && e.Yield?
       else state[t] == Ready && (e.Kill? ==> process[t] != e.proc)
  }

  /** After the event `t` runs, or it is still ready and no further away than
      the event accounts for. */
  ghost predicate Progress(r0: seq<Tid>, c0: Tid, r: seq<Tid>, state: map<Tid, State>, process: map<Tid, nat>, c: Tid,
                           p0: map<Tid, nat>, e: Event, halted: bool, t: Tid)
  {
    && !halted && c0 in r0 && t in r0 && c in r && t in r && t in state && t in process && t in p0
    && process[t] == p0[t]
    && if t == c then state[t] == Running && (e.Yield? || e.Leave?)
       else state[t] == Ready && Dist(r, c, t) + Turns(e) <= Dist(r0, c0, t) + Births(e)
  }

  function Turns(e: Event): nat
  {
    if e.Yield? || e.Leave? then 1 else 0
  }

  function Births(e: Event): nat
  {
    if e.Spawn? then 1 else 0
  }

  lemma WellIn(next: map<Tid, Tid>, state: map<Tid, State>, process: map<Tid, nat>, r: seq<Tid>, current: Tid, t: Tid)
    requires Well(next, state, process, r, current)
    ensures t in next <==> t in r
  {
    hide Cycle;
    assert t in next <==> t in next.Keys;
  }

  lemma ReapedKeeps(r: seq<Tid>, state: map<Tid, State>, current: Tid, t: Tid)
    requires t in r && !Gone(state, current, t)
    ensures t in Reaped(r, state, current)
  {
    LivingMembers(r, state, current);
    assert r == [r[0]] + r[1..];
  }

  lemma LeftRunning(r0: seq<Tid>, s0: map<Tid, State>, r: seq<Tid>, c: Tid, st: State)
    requires st != Running && c in r && c in s0
    ensures c in Restrict(s0[c := st], r) && Yielded(Restrict(s0[c := st], r), c) == Restrict(s0[c := st], r)
  {
  }

  /** A call of schedule: `s1` are the states it starts from. */
  lemma Scheduled(n0: map<Tid, Tid>, s0: map<Tid, State>, p0: map<Tid, nat>, r0: seq<Tid>, c0: Tid, s1: map<Tid, State>,
                  next: map<Tid, Tid>, state: map<Tid, State>, process: map<Tid, nat>, r: seq<Tid>, c: Tid, e: Event,
                  halted: bool)
    requires Well(n0, s0, p0, r0, c0) && Well(next, state, process, r, c) && (e.Yield? || e.Leave?)
    requires c0 in s1 && (e.Yield? ==> s1 == s0) && forall t :: t in s0 && t != c0 ==> t in s1 && s1[t] == s0[t]
    requires r == Reaped(r0, s1, c0) && Nearer(r0, r, c0) && process == Restrict(p0, r) && c0 in r
    requires c0 in Restrict(s1, r)
    requires var ready := Yielded(Restrict(s1, r), c0);
             if halted then NoneReady(r, ready, IndexOf(r, c0)) else Switch(r, ready, IndexOf(r, c0), c, state)
    ensures !halted ==> c in state && state[c] == Running
    ensures forall t :: t in r0 && Steady(s0, p0, c0, e, t) ==> Progress(r0, c0, r, state, process, c, p0, e, halted, t)
  {
    hide Well, Nearer, Reaped, NoneReady, Dist, Chosen;
    forall t | t in r0 && Steady(s0, p0, c0, e, t) ensures Progress(r0, c0, r, state, process, c, p0, e, halted, t) {
      ReapedKeeps(r0, s1, c0, t);
      var ready := Yielded(Restrict(s1, r), c0);
      assert IsReady(ready, t);
      WellAt(next, state, process, r, c, 0);
      SomeReady(r, ready, IndexOf(r, c0), t);
      Advance(r, ready, IndexOf(r, c0), c, state, t);
      NearerAt(r0, r, c0, t);
    }
  }

  lemma NearerAt(r: seq<Tid>, s: seq<Tid>, c: Tid, t: Tid)
    requires Nearer(r, s, c) && t in s
    ensures c in r && c in s && t in r && Dist(s, c, t) <= Dist(r, c, t)
  {
  }

  lemma Advance(r: seq<Tid>, ready: map<Tid, State>, c: nat, t': Tid, state: map<Tid, State>, t: Tid)
    requires c < |r| && Distinct(r) && t in r && IsReady(ready, t) && Switch(r, ready, c, t', state)
    ensures t' in r && t in state
    ensures if t' == t then state[t] == Running else state[t] == Ready && Dist(r, t', t) < Dist(r, r[c], t)
  {
    hide Dist;
    var d: nat :| Chosen(r, ready, c, d) && t' == Step(r, c, d) && state == ready[t' := Running];
    ChoiceDist(r, ready, c, d, t);
  }

  lemma Spawned(n0: map<Tid, Tid>, s0: map<Tid, State>, p0: map<Tid, nat>, r0: seq<Tid>, c0: Tid,
                next: map<Tid, Tid>, state: map<Tid, State>, process: map<Tid, nat>, r: seq<Tid>, e: Event)
    requires Well(n0, s0, p0, r0, c0) && Well(next, state, process, r, c0) && e.Spawn?
    requires if e.t in r0 then r == r0 && state == s0 && process == p0
             else r == r0 + [e.t] && state == s0[e.t := Ready] && process == p0[e.t := e.proc]
    ensures forall t :: t in r0 && Steady(s0, p0, c0, e, t) ==> Progress(r0, c0, r, state, process, c0, p0, e, false, t)
  {
    hide Well, Dist;
    forall t | t in r0 && Steady(s0, p0, c0, e, t) ensures Progress(r0, c0, r, state, process, c0, p0, e, false, t) {
      WellAt(next, state, process, r, c0, 0);
      if e.t !in r0 { GrowDist(r0, e.t, c0, t); }
    }
  }

  lemma Unmoved(n0: map<Tid, Tid>, s0: map<Tid, State>, p0: map<Tid, nat>, r0: seq<Tid>, c0: Tid, state: map<Tid,
                State>, e: Event)
    requires Well(n0, s0, p0, r0, c0) && state.Keys == s0.Keys && !e.Yield? && !e.Leave?
    requires forall t :: t in state && state[t] != s0[t] ==>
               s0[t] == WaitingChild || (e.Kill? && t in p0 && p0[t] == e.proc)
    ensures forall t :: t in r0 && Steady(s0, p0, c0, e, t) ==> Progress(r0, c0, r0, state, p0, c0, p0, e, false, t)
  {
    hide Well, Dist;
    forall t | t in r0 && Steady(s0, p0, c0, e, t) ensures Progress(r0, c0, r0, state, p0, c0, p0, e, false, t) {
      assert t in state.Keys;
    }
  }

  function Schedules(es: seq<Event>): nat
  {
    if es == [] then 0 else Schedules(es[..|es| - 1]) + Turns(es[|es| - 1])
  }

  function Spawns(es: seq<Event>): nat
  {
    if es == [] then 0 else Spawns(es[..|es| - 1]) + Births(es[|es| - 1])
  }

  /** Bounded waiting. In a ring of n threads a thread that stays ready, or that yields
      and then stays ready, runs within n + k calls of schedule, k being the threads
      created meanwhile; and while it waits the scheduler never halts. */
  method BoundedWaiting(s: Scheduler, events: seq<Event>, t: Tid) returns (ran: bool, used: nat, ghost trace: seq<View>)
    requires s.Valid() && t in s.ring && t in s.state && t in s.process
    requires if t == s.current then s.state[t] == Running && events != [] && events[0].Yield? else s.state[t] == Ready
    requires forall i :: 0 <= i < |events| ==> Legal(events[i])
    requires forall i :: 0 <= i < |events| && events[i].Kill? ==> events[i].proc != s.process[t]
    modifies s
    ensures s.Valid() && used <= |events|
    ensures Traced(trace, events[..used], false) && trace[0] == old(s.Seen()) && trace[used] == s.Seen()
    ensures ran ==> 0 < used && t == s.current && t in s.state && s.state[t] == Running
    ensures Schedules(events[..used]) <= |old(s.ring)| + Spawns(events[..used])
    ensures !ran ==> used == |events| && Schedules(events) < |old(s.ring)| + Spawns(events)
  {
    hide Well, Steady, Dist, Did, Traced;
    ghost var n, p := |s.ring|, s.process[t];
    used, ran, trace := 0, false, [s.Seen()];
    NoTrace(trace, events);
    DistBound(s.next, s.state, s.process, s.ring, s.current, t);
    assert events[..0] == [];
    while used < |events|
      invariant 0 <= used <= |events| && s.Valid() && !ran
      invariant s.current in s.ring && t in s.ring && t in s.process && s.process[t] == p && t in s.state
      invariant t != s.current ==> s.state[t] == Ready
      invariant t == s.current ==> used == 0 && s.state[t] == Running && used < |events| && events[used].Yield?
      invariant Dist(s.ring, s.current, t) + Schedules(events[..used]) <= n + Spawns(events[..used])
      invariant |trace| == used + 1 && Traced(trace, events[..used], false) && trace[0] == old(s.Seen())
      invariant trace[used] == s.Seen()
    {
      ghost var e := events[used];
      SteadyNow(s.state, s.process, s.current, e, t);
      assert events[..used + 1][..used] == events[..used];
      var halted := Happen(s, events[used]);
      TraceMore(trace, events, used, halted, s.Seen());
      used, trace := used + 1, trace + [s.Seen()];
      if s.current == t { return true, used, trace; }
    }
    assert events[..used] == events;
  }

  /** Any run from boot follows the events one by one, and keeps one ring through
      the current thread with at most that one running. */
  method Run(main: Tid, kernel: nat, events: seq<Event>)
    returns (s: Scheduler, halted: bool, used: nat, ghost trace: seq<View>)
    requires forall i :: 0 <= i < |events| ==> Legal(events[i])
    ensures fresh(s) && s.Valid() && used <= |events| && (!halted ==> used == |events|)
    ensures Traced(trace, events[..used], halted) && trace[used] == s.Seen()
    ensures trace[0] == View([main], map[main := Running], map[main := kernel], main)
  {
    hide Well, Did, Traced, Progress, Steady;
    s := new Scheduler(main, kernel);
    halted, used, trace := false, 0, [s.Seen()];
    NoTrace(trace, events);
    while used < |events|
      invariant 0 <= used <= |events| && fresh(s) && s.Valid() && !halted
      invariant |trace| == used + 1 && Traced(trace, events[..used], false) && trace[used] == s.Seen()
      invariant trace[0] == View([main], map[main := Running], map[main := kernel], main)
    {
      halted := Happen(s, events[used]);
      TraceMore(trace, events, used, halted, s.Seen());
      used, trace := used + 1, trace + [s.Seen()];
      if halted { return; }
    }
  }

  lemma NoTrace(trace: seq<View>, events: seq<Event>)
    requires |trace| == 1
    ensures Traced(trace, events[..0], false)
  {
  }

  lemma SteadyNow(state: map<Tid, State>, process: map<Tid, nat>, current: Tid, e: Event, t: Tid)
    requires t in state && t in process && (e.Kill? ==> process[t] != e.proc)
    requires if t == current then state[t] == Running && e.Yield? else state[t] == Ready
    ensures Steady(state, process, current, e, t)
  {
  }

  lemma DistBound(next: map<Tid, Tid>, state: map<Tid, State>, process: map<Tid, nat>, r: seq<Tid>, current: Tid,
                  t: Tid)
    requires Well(next, state, process, r, current) && t in r
    ensures current in r && Dist(r, current, t) <= |r|
  {
  }
}
