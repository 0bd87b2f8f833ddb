/** The thread ring of kernel/thread/thread.c as a value: a circular list read from
    its head, what the reaper leaves of it, and round-robin choice. */
module Ring {

  type Tid = nat

  datatype State = Ready | Running | Blocked | WaitingChild | Dead

  ghost predicate Distinct(r: seq<Tid>)
  {
    forall i, j :: 0 <= i < j < |r| ==> r[i] != r[j]
  }

  function Succ(r: seq<Tid>, i: nat): Tid
    requires i < |r|
  {
    if i + 1 < |r| then r[i + 1] else r[0]
  }

  /** Following `next` from the head visits `r` and returns to the head. */
  ghost predicate Cycle(next: map<Tid, Tid>, r: seq<Tid>)
  {
    r != [] && Distinct(r) && forall i: nat :: i < |r| ==> Follows(next, r, i)
  }

  ghost predicate Follows(next: map<Tid, Tid>, r: seq<Tid>, i: nat)
    requires i < |r|
  {
    r[i] in next && next[r[i]] == Succ(r, i)
  }

  function Without(r: seq<Tid>, i: nat): (s: seq<Tid>)
    requires i < |r|
    ensures |s| == |r| - 1
  {
    r[..i] + r[i + 1..]
  }

  function Pred(r: seq<Tid>, i: nat): Tid
    requires i < |r|
  {
    if i == 0 then r[|r| - 1] else r[i - 1]
  }

  /** Unlinking one thread leaves a ring of the others. */
  lemma CutCycle(next: map<Tid, Tid>, r: seq<Tid>, i: nat)
    requires Cycle(next, r) && i < |r| && |r| >= 2
    ensures r[i] in next && Cycle(next[Pred(r, i) := next[r[i]]] - {r[i]}, Without(r, i))
  {
    var s := Without(r, i);
    assert Follows(next, r, i);
    var next' := next[Pred(r, i) := next[r[i]]] - {r[i]};
    assert Pred(r, i) != r[i];
    forall j: nat | j < |s| ensures Follows(next', s, j) {
      var k := if j < i then j else j + 1;
      assert s[j] == r[k] && Follows(next, r, k);
    }
  }

  /** Linking a new thread between the tail and the head. */
  lemma GrowCycle(next: map<Tid, Tid>, r: seq<Tid>, t: Tid)
    requires Cycle(next, r) && t !in r
    ensures Cycle(next[r[|r| - 1] := t][t := r[0]], r + [t])
  {
    var next' := next[r[|r| - 1] := t][t := r[0]];
    forall j: nat | j < |r| + 1 ensures Follows(next', r + [t], j) {
      if j < |r| { assert Follows(next, r, j); }
    }
  }

  // ---------------------------------------------------------------- reaping

  predicate Gone(state: map<Tid, State>, current: Tid, t: Tid)
  {
    t in state && state[t] == Dead && t != current
  }

  /** The ring without its dead threads, but for the running one. */
  function Living(r: seq<Tid>, state: map<Tid, State>, current: Tid): seq<Tid>
  {
    if r == [] then []
    else
      var rest := Living(r[..|r| - 1], state, current);
      if Gone(state, current, r[|r| - 1]) then rest else rest + [r[|r| - 1]]
  }

  lemma {:induction false} LivingMembers(r: seq<Tid>, state: map<Tid, State>, current: Tid)
    ensures |Living(r, state, current)| <= |r|
    ensures forall t :: t in Living(r, state, current) <==> t in r && !Gone(state, current, t)
  {
    if r == [] {
    } else {
      assert r == r[..|r| - 1] + [r[|r| - 1]];
      LivingMembers(r[..|r| - 1], state, current);
    }
  }

  /** What reap_dead_threads leaves: when the head itself is dead the loop stops
      after removing it. */
  function Reaped(r: seq<Tid>, state: map<Tid, State>, current: Tid): seq<Tid>
    requires r != []
  {
    if Gone(state, current, r[0]) then r[1..] else Living(r, state, current)
  }

  lemma {:induction false} LivingDistinct(r: seq<Tid>, state: map<Tid, State>, current: Tid)
    requires Distinct(r)
    ensures Distinct(Living(r, state, current))
  {
    if r == [] {
    } else {
      LivingDistinct(r[..|r| - 1], state, current);
      LivingMembers(r[..|r| - 1], state, current);
    }
  }

  lemma {:induction false} LivingAll(r: seq<Tid>, state: map<Tid, State>, current: Tid)
    requires forall t :: t in r ==> !Gone(state, current, t)
    ensures Living(r, state, current) == r
  {
    if r == [] {
    } else {
      assert r == r[..|r| - 1] + [r[|r| - 1]];
      LivingAll(r[..|r| - 1], state, current);
    }
  }

  lemma {:induction false} LivingSame(r: seq<Tid>, state: map<Tid, State>, current: Tid)
    requires Living(r, state, current) == r
    ensures forall t :: t in r ==> !Gone(state, current, t)
  {
    LivingMembers(r, state, current);
  }

  lemma LivingLast(r: seq<Tid>, t: Tid, state: map<Tid, State>, current: Tid)
    ensures Living(r + [t], state, current) == Living(r, state, current) + if Gone(state, current, t) then [] else [t]
  {
    assert (r + [t])[..|r|] == r;
  }

  lemma {:induction false} LivingCons(t: Tid, r: seq<Tid>, state: map<Tid, State>, current: Tid)
    ensures Living([t] + r, state, current) == (if Gone(state, current, t) then [] else [t]) + Living(r, state, current)
    decreases |r|
  {
    hide Living;
    if r == [] {
      LivingLast([], t, state, current);
      assert [] + [t] == [t] + r;
      LivingAll([], state, current);
    } else {
      var r', z := r[..|r| - 1], r[|r| - 1];
      assert r == r' + [z];
      assert [t] + r == ([t] + r') + [z];
      LivingCons(t, r', state, current);
      LivingLast(r', z, state, current);
      LivingLast([t] + r', z, state, current);
    }
  }

  /** The reaper removes every dead thread that is not running exactly when the
      head is not dead, or is the only dead thread. */
  lemma ReapedIsLiving(r: seq<Tid>, state: map<Tid, State>, current: Tid)
    requires r != []
    ensures Reaped(r, state, current) == Living(r, state, current)
        <==> !Gone(state, current, r[0]) || forall t :: t in r[1..] ==> !Gone(state, current, t)
  {
    assert r == [r[0]] + r[1..];
    LivingCons(r[0], r[1..], state, current);
    if Gone(state, current, r[0]) {
      if Living(r[1..], state, current) == r[1..] { LivingSame(r[1..], state, current); }
      if forall t :: t in r[1..] ==> !Gone(state, current, t) { LivingAll(r[1..], state, current); }
    }
  }

  /** Who stays: every thread that is not dead, the current one, and, when the head is
      dead and not current, everyone but the head. */
  lemma ReapedStays(r: seq<Tid>, state: map<Tid, State>, current: Tid, t: Tid)
    requires r != [] && Distinct(r) && t in r && r[0] in state && t in state
    ensures t in Reaped(r, state, current) <==>
              if state[r[0]] == Dead && r[0] != current then t != r[0] else state[t] != Dead || t == current
  {
    LivingMembers(r, state, current);
    assert r == [r[0]] + r[1..];
  }

  /** Two dead threads of which one is the head: the other survives the call. */
  lemma DeadHeadHidesOthers()
    ensures var state := map[1 := Dead, 2 := Dead, 3 := Running];
            2 in Reaped([1, 2, 3], state, 3) && Gone(state, 3, 2)
  {
    assert [1, 2, 3][1..] == [2, 3];
  }

  // ------------------------------------------------------ round-robin choice

  /** The thread `d` steps after position `c`. */
  function Step(r: seq<Tid>, c: nat, d: nat): Tid
    requires c < |r| && d <= |r|
  {
    if c + d < |r| then r[c + d] else if c + d - |r| < |r| then r[c + d - |r|] else r[0]
  }

  /** How many steps lead from position `c` to position `i`; a whole round when
      they are the same. */
  function Distance(n: nat, c: nat, i: nat): (d: int)
    requires c < n && i < n
    ensures 1 <= d <= n
  {
    if i > c then i - c else i - c + n
  }

  lemma StepDistance(r: seq<Tid>, c: nat, i: nat)
    requires c < |r| && i < |r|
    ensures Step(r, c, Distance(|r|, c, i)) == r[i]
  {
  }

  /** `next` is the first ready thread after position `c`. */
  ghost predicate Chosen(r: seq<Tid>, state: map<Tid, State>, c: nat, d: nat)
    requires c < |r|
  {
    && 1 <= d <= |r| && IsReady(state, Step(r, c, d))
    && forall e :: 1 <= e < d ==> !IsReady(state, Step(r, c, e))
  }

  predicate IsReady(state: map<Tid, State>, t: Tid)
  {
    t in state && state[t] == Ready
  }

  ghost predicate NoneReady(r: seq<Tid>, state: map<Tid, State>, c: nat)
    requires c < |r|
  {
    forall e :: 1 <= e <= |r| ==> !IsReady(state, Step(r, c, e))
  }

  function IndexOf(r: seq<Tid>, t: Tid): (i: nat)
    requires t in r
    ensures i < |r| && r[i] == t
  {
    if r[|r| - 1] == t then |r| - 1 else IndexOf(r[..|r| - 1], t)
  }

  // ---------------------------------------------------------------- distances

  lemma IndexUnique(r: seq<Tid>, i: nat)
    requires Distinct(r) && i < |r|
    ensures IndexOf(r, r[i]) == i
  {
  }

  /** Steps from thread `c` to thread `t` around the ring. */
  function Dist(r: seq<Tid>, c: Tid, t: Tid): (d: int)
    requires c in r && t in r
    ensures 1 <= d <= |r|
  {
    Distance(|r|, IndexOf(r, c), IndexOf(r, t))
  }

  /** No thread of `s` is further from `c` than it was in `r`. */
  ghost predicate Nearer(r: seq<Tid>, s: seq<Tid>, c: Tid)
  {
    c in r && c in s && forall t :: t in s ==> t in r && Dist(s, c, t) <= Dist(r, c, t)
  }

  lemma CutNearer(r: seq<Tid>, i: nat, c: Tid)
    requires Distinct(r) && i < |r| && c in r && r[i] != c
    ensures Nearer(r, Without(r, i), c) && Distinct(Without(r, i))
  {
    var s := Without(r, i);
    forall t | t in r && t != r[i]
      ensures t in s && IndexOf(s, t) == var k := IndexOf(r, t); if k < i then k else k - 1
    {
      hide IndexOf;
      var k := IndexOf(r, t);
      var k' := if k < i then k else k - 1;
      assert s[k'] == t;
      IndexUnique(s, k');
    }
    hide IndexOf;
  }

  lemma NearerTrans(r: seq<Tid>, s: seq<Tid>, u: seq<Tid>, c: Tid)
    requires Nearer(r, s, c) && Nearer(s, u, c)
    ensures Nearer(r, u, c)
  {
    hide Dist;
  }

  lemma NearerRefl(r: seq<Tid>, c: Tid)
    requires c in r
    ensures Nearer(r, r, c)
  {
  }

  /** A new thread at the tail adds at most one step. */
  lemma GrowDist(r: seq<Tid>, n: Tid, c: Tid, t: Tid)
    requires Distinct(r + [n]) && c in r && t in r
    ensures c in r + [n] && t in r + [n] && Dist(r + [n], c, t) <= Dist(r, c, t) + 1
  {
    var s := r + [n];
    var i, j := IndexOf(r, c), IndexOf(r, t);
    assert s[i] == c && s[j] == t;
    IndexUnique(s, i);
    IndexUnique(s, j);
  }

  /** Round-robin choice stops at a ready thread or moves closer to it. */
  lemma ChoiceDist(r: seq<Tid>, state: map<Tid, State>, c: nat, d: nat, t: Tid)
    requires Distinct(r) && c < |r| && t in r && IsReady(state, t) && Chosen(r, state, c, d)
    ensures Step(r, c, d) in r && (Step(r, c, d) != t ==> Dist(r, Step(r, c, d), t) == Dist(r, r[c], t) - d)
  {
    var i := IndexOf(r, t);
    IndexUnique(r, c);
    IndexUnique(r, i);
    StepDistance(r, c, i);
    var e := Distance(|r|, c, i);
    assert IsReady(state, Step(r, c, e));
    assert d <= e;
    var k := if c + d < |r| then c + d else c + d - |r|;
    IndexUnique(r, k);
  }

  lemma SomeReady(r: seq<Tid>, state: map<Tid, State>, c: nat, t: Tid)
    requires c < |r| && t in r && IsReady(state, t)
    ensures !NoneReady(r, state, c)
  {
    var i := IndexOf(r, t);
    StepDistance(r, c, i);
    assert IsReady(state, Step(r, c, Distance(|r|, c, i)));
  }
}
