/**
 The resource-allocation-graph deadlock detector of the kernel: res_acquire, res_release, res_wait,
 find_holder and check_deadlock, with its energy-aware recovery.
 */
module ResourceDeadlock {
  import opened Collections
  import opened Params
  import opened WaitGraph

  datatype Proc = Proc(
    state: ProcState,
    pid: int,
    killed: bool,
    energyConsumed: nat,
    holdingRes: seq<bool>,
    waitingRes: int)  // -1 when the process waits for nothing

  type Table = seq<Proc>

  /** What allocproc, freeproc and the res_* calls keep: resource numbers in range, live processes have a pid. */
  predicate TableOk(t: Table) {
    && |t| == NPROC
    && (forall p :: 0 <= p < |t| ==> ProcOk(t[p]))
  }

  predicate ProcOk(p: Proc) {
    |p.holdingRes| == NRES && -1 <= p.waitingRes < NRES && (!p.state.Unused? ==> p.pid > 0)
  }

  predicate Holds(p: Proc, res: int)
    requires ProcOk(p) && 0 <= res < NRES
  {
    !p.state.Unused? && p.holdingRes[res]
  }

  predicate Waits(p: Proc) {
    !p.state.Unused? && p.waitingRes >= 0
  }

  /** The lowest-numbered live holder of a resource at or after slot `from`. */
  function Holder(t: Table, res: int, from: nat := 0): (r: Option<nat>)
    requires TableOk(t) && 0 <= res < NRES && from <= |t|
    ensures r.Some? ==> from <= r.value < |t| && Holds(t[r.value], res)
    ensures forall q :: from <= q < (if r.Some? then r.value else |t|) ==> !Holds(t[q], res)
    decreases |t| - from
  {
    if from == |t| then None
    else if Holds(t[from], res) then Some(from)
    else Holder(t, res, from + 1)
  }

  /** The wait-for graph: a live waiting process points at the holder of its resource. */
  function WaitsFor(t: Table): (g: Graph)
    requires TableOk(t)
    ensures |g| == |t| && WellFormed(g)
  {
    seq(|t|, p requires 0 <= p < |t| => if Waits(t[p]) then Holder(t, t[p].waitingRes) else None)
  }

  function Kill(t: Table, victim: nat): (r: Table)
    requires TableOk(t) && victim < |t| && !t[victim].state.Unused?
    ensures TableOk(r)
  {
    t[victim := t[victim].(holdingRes := seq(NRES, _ => false), waitingRes := -1, killed := true,
                           state := if t[victim].state.Sleeping? then Runnable else t[victim].state)]
  }

  predicate MaximalEnergy(t: Table, c: seq<nat>, victim: nat)
    requires forall i :: 0 <= i < |c| ==> c[i] < |t|
  {
    victim in c && forall i :: 0 <= i < |c| ==> t[c[i]].energyConsumed <= t[victim].energyConsumed
  }

  /** One successful recovery: some member of a cycle with maximal energy is killed. */
  ghost predicate Recovery(t: Table, t': Table, c: seq<nat>, victim: nat) {
    && TableOk(t)
    && IsCycle(WaitsFor(t), c)
    && MaximalEnergy(t, c, victim)
    && !t[victim].state.Unused?
    && t' == Kill(t, victim)
  }

  ghost function WaitingSet(t: Table): set<nat> {
    set p: nat | p < |t| && Waits(t[p])
  }

  /** Every recovery takes exactly one process out of the set of waiting processes. */
  lemma RecoveryLowersWaiting(t: Table, t': Table, c: seq<nat>, victim: nat)
    requires Recovery(t, t', c, victim)
    ensures victim in WaitingSet(t) && WaitingSet(t') == WaitingSet(t) - {victim}
    ensures |WaitingSet(t')| == |WaitingSet(t)| - 1
  {
    assert OnCycle(WaitsFor(t), victim);
    OnCycleNext(WaitsFor(t), victim);
  }

  ghost predicate RecoveryStep(t: Table, t': Table) {
    exists c, victim :: Recovery(t, t', c, victim)
  }

  /** A run of recoveries, each started from the table the previous one left. */
  ghost predicate RecoveryRun(run: seq<Table>) {
    |run| > 0 && TableOk(run[0]) && forall i :: 1 <= i < |run| ==> RecoveryStep(run[i - 1], run[i])
  }

  /** Without waiting processes there is no cycle. */
  lemma CycleNeedsWaiting(t: Table)
    requires TableOk(t) && HasCycle(WaitsFor(t))
    ensures |WaitingSet(t)| > 0
  {
    var c :| IsCycle(WaitsFor(t), c);
    assert c[0] in c;
    OnCycleNext(WaitsFor(t), c[0]);
    assert c[0] in WaitingSet(t);
  }

  /**
   Repeated recovery ends: each call uses up one waiting process, so no more than NPROC calls can
   find a cycle, and after that many the wait-for graph is acyclic.
   */
  lemma {:induction false} RecoveryRunIsShort(run: seq<Table>)
    requires RecoveryRun(run)
    ensures TableOk(run[|run| - 1])
    ensures |run| - 1 + |WaitingSet(run[|run| - 1])| == |WaitingSet(run[0])| <= NPROC
    ensures |run| - 1 == |WaitingSet(run[0])| ==> !HasCycle(WaitsFor(run[|run| - 1]))
    decreases |run|
  {
    RangeSize(0, NPROC);
    SubsetSize(WaitingSet(run[0]), Range(0, NPROC));
    var last := |run| - 1;
    if last > 0 {
      RecoveryRunIsShort(run[..last]);
      assert RecoveryStep(run[last - 1], run[last]);
      var c, v :| Recovery(run[last - 1], run[last], c, v);
      RecoveryLowersWaiting(run[last - 1], run[last], c, v);
    }
    if HasCycle(WaitsFor(run[last])) {
      CycleNeedsWaiting(run[last]);
    }
  }

  /** The resource's next live holder after the victim, once the victim has let go of everything. */
  lemma {:induction false} HolderAfterKill(t: Table, victim: nat, res: int, from: nat)
    requires TableOk(t) && victim < |t| && !t[victim].state.Unused? && 0 <= res < NRES && from <= |t|
    ensures Holder(Kill(t, victim), res, from) ==
            if Holder(t, res, from) == Some(victim) then Holder(t, res, victim + 1) else Holder(t, res, from)
    decreases |t| - from
  {
    if from < |t| {
      HolderAfterKill(t, victim, res, from + 1);
    }
  }

  ghost predicate AddsNoEdge(g: Graph, g': Graph) {
    |g| == |g'| && forall p :: 0 <= p < |g| && g'[p].Some? ==> g'[p] == g[p]
  }

  /** Somebody other than the victim waits for a resource that the victim and a later process both hold. */
  ghost predicate SharedWait(t: Table, victim: nat, p: nat, q: nat)
    requires TableOk(t)
  {
    && p < |t| && p != victim && Waits(t[p])
    && Holder(t, t[p].waitingRes) == Some(victim)
    && victim < q < |t| && Holds(t[q], t[p].waitingRes)
  }

  lemma EdgeAfterKill(t: Table, victim: nat, p: nat)
    requires TableOk(t) && victim < |t| && !t[victim].state.Unused? && p < |t|
    ensures var g, g' := WaitsFor(t), WaitsFor(Kill(t, victim));
            g'[p] == if p == victim || !Waits(t[p]) then None
                     else if g[p] == Some(victim) then Holder(t, t[p].waitingRes, victim + 1) else g[p]
  {
    if p != victim && Waits(t[p]) {
      HolderAfterKill(t, victim, t[p].waitingRes, 0);
    }
  }

  /** Exactly when a recovery adds no wait-for edge. */
  lemma RecoveryAddsNoEdgeIff(t: Table, victim: nat)
    requires TableOk(t) && victim < |t| && !t[victim].state.Unused?
    ensures AddsNoEdge(WaitsFor(t), WaitsFor(Kill(t, victim))) <==>
            !exists p: nat, q: nat :: SharedWait(t, victim, p, q)
  {
    var g, g' := WaitsFor(t), WaitsFor(Kill(t, victim));
    if p: nat, q: nat :| SharedWait(t, victim, p, q) {
      EdgeAfterKill(t, victim, p);
      assert g'[p] == Holder(t, t[p].waitingRes, victim + 1) && g[p] == Some(victim);
    }
    if !AddsNoEdge(g, g') {
      var p: nat :| p < |g| && g'[p].Some? && g'[p] != g[p];
      EdgeAfterKill(t, victim, p);
      assert SharedWait(t, victim, p, g'[p].value);
    }
  }

  ghost predicate OneHolderEach(t: Table)
    requires TableOk(t)
  {
    forall res, p, q :: 0 <= res < NRES && 0 <= p < |t| && 0 <= q < |t| && Holds(t[p], res) && Holds(t[q], res) ==>
      p == q
  }

  /** With exclusive resources, recovery breaks the cycle it found and creates no other. */
  lemma ExclusiveRecovery(t: Table, t': Table, c: seq<nat>, victim: nat)
    requires Recovery(t, t', c, victim) && OneHolderEach(t)
    ensures AddsNoEdge(WaitsFor(t), WaitsFor(t')) && OneHolderEach(t')
    ensures !OnCycle(WaitsFor(t'), victim)
    ensures forall c' :: IsCycle(WaitsFor(t'), c') ==> IsCycle(WaitsFor(t), c') && victim !in c'
  {
    RecoveryAddsNoEdgeIff(t, victim);
    if OnCycle(WaitsFor(t'), victim) {
      OnCycleNext(WaitsFor(t'), victim);
    }
  }

  /** Two holders: killing process 1 makes process 0 wait for process 2 instead, a new edge. */
  lemma SharedResourceGainsEdge() returns (t: Table)
    ensures TableOk(t) && !t[1].state.Unused? && Recovery(t, Kill(t, 1), [0, 1], 1)
    ensures WaitsFor(t)[0] == Some(1) && WaitsFor(Kill(t, 1))[0] == Some(2)
    ensures !AddsNoEdge(WaitsFor(t), WaitsFor(Kill(t, 1)))
  {
    var none := seq(NRES, _ => false);
    var idle := Proc(Unused, 0, false, 0, none, -1);
    t := seq(NPROC, _ => idle)[0 := Proc(Sleeping, 1, false, 0, none[1 := true], 0)]
         [1 := Proc(Sleeping, 2, false, 5, none[0 := true], 1)]
         [2 := Proc(Running, 3, false, 0, none[0 := true], -1)];
    var t' := Kill(t, 1);
    assert Holder(t, 1) == Some(0);
    assert Holder(t, 0) == Holder(t, 0, 1) == Some(1);
    HolderAfterKill(t, 1, 0, 0);
  }

  class ProcTable {
    const proc: array<Proc>

    ghost predicate Valid()
      reads this, proc
    {
      TableOk(proc[..])
    }

    /** The table at boot, in zeroed memory: nobody holds or waits for anything. */
    constructor ()
      ensures Valid() && fresh(proc) && proc.Length == NPROC
      ensures forall p :: 0 <= p < NPROC ==> proc[p] == Proc(ProcState.Unused, 0, false, 0, seq(NRES, _ => false), 0)
    {
      proc := new Proc[NPROC](_ => Proc(ProcState.Unused, 0, false, 0, seq(NRES, _ => false), 0));
    }

    method ResAcquire(me: nat, res: int)
      requires Valid() && me < proc.Length && !proc[me].state.Unused?
      modifies proc
      ensures Valid()
      ensures proc[..] == if 0 <= res < NRES
                          then old(proc[..])[me := old(proc[me]).(holdingRes := old(proc[me]).holdingRes[res := true],
                            waitingRes := -1)]
                          else old(proc[..])
    {
      if res < 0 || res >= NRES {
        return;
      }
      proc[me] := proc[me].(holdingRes := proc[me].holdingRes[res := true]);
      proc[me] := proc[me].(waitingRes := -1);
    }

    method ResRelease(me: nat, res: int)
      requires Valid() && me < proc.Length && !proc[me].state.Unused?
      modifies proc
      ensures Valid()
      ensures proc[..] == if 0 <= res < NRES
                          then old(proc[..])[me := old(proc[me]).(holdingRes := old(proc[me]).holdingRes[res := false])]
                          else old(proc[..])
    {
      if res < 0 || res >= NRES {
        return;
      }
      proc[me] := proc[me].(holdingRes := proc[me].holdingRes[res := false]);
    }

    method ResWait(me: nat, res: int)
      requires Valid() && me < proc.Length && !proc[me].state.Unused?
      modifies proc
      ensures Valid()
      ensures proc[..] == if 0 <= res < NRES
                          then old(proc[..])[me := old(proc[me]).(waitingRes := res)]
                          else old(proc[..])
    {
      if res < 0 || res >= NRES {
        return;
      }
      proc[me] := proc[me].(waitingRes := res);
    }

    method FindHolder(res: int) returns (r: Option<nat>)
      requires Valid() && 0 <= res < NRES
      ensures r == Holder(proc[..], res)
    {
      for p := 0 to NPROC
        invariant Holder(proc[..], res) == Holder(proc[..], res, p)
      {
        if !proc[p].state.Unused? && proc[p].holdingRes[res] {
          return Some(p);
        }
      }
      return None;
    }

    /**
     The chain walk of check_deadlock from one waiting process: the members of the cycle it runs
     into, or [] when the chain ends. The list of visited processes fits an array of NPROC.
     */
    method FollowChain(p: nat) returns (deadlocked: seq<nat>)
      requires Valid() && p < NPROC && Waits(proc[p])
      ensures deadlocked == [] ==> !OnCycle(WaitsFor(proc[..]), p)
      ensures deadlocked != [] ==> IsCycle(WaitsFor(proc[..]), deadlocked)
    {
      ghost var g := WaitsFor(proc[..]);
      var visited: seq<nat> := [];
      var cur: Option<nat> := Some(p);
      while cur.Some? && proc[cur.value].waitingRes >= 0
        invariant cur.Some? ==> cur.value < NPROC && !proc[cur.value].state.Unused?
        invariant Distinct(visited) && |visited| <= NPROC
        invariant if visited == [] then cur == Some(p) else IsChain(g, visited) && g[visited[|visited| - 1]] == cur
        invariant OnCycle(g, p) ==> cur.Some? && OnCycle(g, cur.value)
        decreases NPROC - |visited|
      {
        for i := 0 to |visited|
          invariant cur.value !in visited[..i]
        {
          if visited[i] == cur.value {
            ClosingChain(g, visited, i);
            return visited[i..];
          }
        }
        Pigeonhole(visited + [cur.value], NPROC);
        if |visited| >= NPROC {
          assert false;  // so this exit is never taken
          break;
        }
        if OnCycle(g, p) {
          OnCycleNext(g, cur.value);
        }
        visited := visited + [cur.value];
        cur := FindHolder(proc[cur.value].waitingRes);
      }
      if OnCycle(g, p) {
        OnCycleNext(g, cur.value);
      }
      return [];
    }

    /** The search half of check_deadlock: the members of one cycle, or [] when there is none. */
    method FindCycle() returns (deadlocked: seq<nat>)
      requires Valid()
      ensures deadlocked == [] <==> !HasCycle(WaitsFor(proc[..]))
      ensures deadlocked != [] ==> IsCycle(WaitsFor(proc[..]), deadlocked)
    {
      ghost var g := WaitsFor(proc[..]);
      for p := 0 to NPROC
        invariant forall q :: 0 <= q < p ==> !OnCycle(g, q)
      {
        if OnCycle(g, p) {
          OnCycleNext(g, p);
        }
        if proc[p].state.Unused? || proc[p].waitingRes < 0 {
          continue;
        }
        deadlocked := FollowChain(p);
        if deadlocked != [] {
          return;
        }
      }
      if HasCycle(g) {
        var c :| IsCycle(g, c);
        assert c[0] in c && OnCycle(g, c[0]);
      }
      return [];
    }

    /** The first member of the cycle with the highest energy consumption. */
    method ChooseVictim(deadlocked: seq<nat>) returns (victim: nat)
      requires deadlocked != [] && forall i :: 0 <= i < |deadlocked| ==> deadlocked[i] < proc.Length
      ensures MaximalEnergy(proc[..], deadlocked, victim)
    {
      victim := deadlocked[0];
      var maxEnergy := proc[victim].energyConsumed;
      for i := 1 to |deadlocked|
        invariant victim in deadlocked && maxEnergy == proc[victim].energyConsumed
        invariant forall k :: 0 <= k < i ==> proc[deadlocked[k]].energyConsumed <= maxEnergy
      {
        if proc[deadlocked[i]].energyConsumed > maxEnergy {
          maxEnergy := proc[deadlocked[i]].energyConsumed;
          victim := deadlocked[i];
        }
      }
    }

    /** The recovery half of check_deadlock. */
    method KillVictim(v: nat)
      requires Valid() && v < NPROC && !proc[v].state.Unused?
      modifies proc
      ensures Valid() && proc[..] == Kill(old(proc[..]), v)
    {
      var none := proc[v].holdingRes;
      for i := 0 to NRES
        invariant |none| == NRES && forall k :: 0 <= k < i ==> !none[k]
      {
        none := none[i := false];
      }
      assert none == seq(NRES, _ => false);
      proc[v] := proc[v].(holdingRes := none, waitingRes := -1, killed := true);
      if proc[v].state.Sleeping? {
        proc[v] := proc[v].(state := Runnable);
      }
    }

    /** check_deadlock: the pid of the killed victim, or 0. */
    method CheckDeadlock() returns (r: int, ghost cycle: seq<nat>, ghost victim: nat)
      requires Valid()
      modifies proc
      ensures Valid()
      ensures r != 0 <==> HasCycle(WaitsFor(old(proc[..])))
      ensures r == 0 ==> proc[..] == old(proc[..])
      ensures r != 0 ==> Recovery(old(proc[..]), proc[..], cycle, victim) && r == old(proc[..])[victim].pid
    {
      var deadlocked := FindCycle();
      cycle, victim := deadlocked, 0;
      if |deadlocked| == 0 {
        return 0, cycle, victim;
      }
      var v := ChooseVictim(deadlocked);
      assert OnCycle(WaitsFor(proc[..]), v);
      OnCycleNext(WaitsFor(proc[..]), v);
      victim := v;
      KillVictim(v);
      r := proc[v].pid;
    }
  }
}
