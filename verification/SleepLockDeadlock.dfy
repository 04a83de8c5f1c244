/**
 The deadlock check that acquiresleep makes before it goes to sleep on a sleep lock, and the
 energy-aware recovery that follows when the check says yes.
 */
module SleepLockDeadlock {
  import opened Collections
  import opened Params
  import opened WaitGraph

  datatype Proc = Proc(
    state: ProcState,
    pid: int,
    killed: bool,
    energyConsumed: nat,
    waitingForLock: Option<nat>,
    inDeadlock: bool,
    deadlockReports: nat)

  datatype SleepLock = SleepLock(locked: bool, pid: int)

  type Table = seq<Proc>
  type Locks = seq<SleepLock>

  predicate TableOk(t: Table, locks: Locks) {
    |t| == NPROC && forall p :: 0 <= p < |t| && t[p].waitingForLock.Some? ==> t[p].waitingForLock.value < |locks|
  }

  predicate DistinctPids(t: Table) {
    forall p, q :: 0 <= p < |t| && 0 <= q < |t| ==>
      !t[p].state.Unused? && !t[q].state.Unused? && t[p].pid == t[q].pid ==> p == q
  }

  /** The first live process with the given pid. */
  function ProcOf(t: Table, pid: int, from: nat := 0): (r: Option<nat>)
    requires from <= |t|
    ensures r.Some? ==> pid > 0 && from <= r.value < |t| && t[r.value].pid == pid && !t[r.value].state.Unused?
    ensures r.None? && pid > 0 ==> forall p :: from <= p < |t| ==> t[p].pid != pid || t[p].state.Unused?
    decreases |t| - from
  {
    if pid <= 0 || from == |t| then None
    else if t[from].pid == pid && !t[from].state.Unused? then Some(from)
    else ProcOf(t, pid, from + 1)
  }

  /** A process that waits for a locked lock points at the lock's owner. */
  function WaitsFor(t: Table, locks: Locks): (g: Graph)
    requires TableOk(t, locks)
    ensures |g| == |t| && WellFormed(g)
  {
    seq(|t|, p requires 0 <= p < |t| => NextOwner(t, locks, p))
  }

  function NextOwner(t: Table, locks: Locks, p: nat): Option<nat>
    requires TableOk(t, locks) && p < |t|
  {
    ProcOf(t, NextPid(t, locks, p))
  }

  /** The owner of the target lock can reach `me`: waiting for the lock would close a cycle. */
  ghost predicate Deadlocks(t: Table, locks: Locks, me: nat, target: nat)
    requires TableOk(t, locks) && target < |locks|
  {
    var owner := ProcOf(t, locks[target].pid);
    owner.Some? && Reaches(WaitsFor(t, locks), owner.value, me)
  }

  /**
   The processes that the recovery visits, in order: owners of locks, from `ownerPid` on, until
   the chain ends, comes back to the process that started it, or `hops` processes were visited.
   */
  function Walk(t: Table, locks: Locks, ownerPid: int, startPid: int, hops: nat): (w: seq<nat>)
    requires TableOk(t, locks)
    ensures forall i :: 0 <= i < |w| ==> w[i] < |t|
    decreases hops
  {
    if hops == 0 || ownerPid == startPid || ProcOf(t, ownerPid).None? then []
    else
      var owner := ProcOf(t, ownerPid).value;
      [owner] + Walk(t, locks, NextPid(t, locks, owner), startPid, hops - 1)
  }

  /** The pid of the owner of the lock that p waits for, 0 when p waits for no locked lock. */
  function NextPid(t: Table, locks: Locks, p: nat): int
    requires TableOk(t, locks) && p < |t|
  {
    match t[p].waitingForLock
    case None => 0
    case Some(l) => if locks[l].locked then locks[l].pid else 0
  }

  predicate SameWaits(t: Table, t': Table) {
    |t| == |t'| && forall p :: 0 <= p < |t| ==>
      && t'[p].pid == t[p].pid && t'[p].waitingForLock == t[p].waitingForLock &&
         t'[p].energyConsumed == t[p].energyConsumed
      && (t'[p].state.Unused? <==> t[p].state.Unused?)
  }

  lemma {:induction false} SameProcOf(t: Table, t': Table, pid: int, from: nat)
    requires SameWaits(t, t') && from <= |t|
    ensures ProcOf(t, pid, from) == ProcOf(t', pid, from)
    decreases |t| - from
  {
    if from < |t| {
      SameProcOf(t, t', pid, from + 1);
    }
  }

  /** who[0] is the process that ran into the deadlock. */
  predicate MaximalEnergy(t: Table, who: seq<nat>, victim: nat) {
    && victim in who && victim < |t|
    && (forall i :: 0 <= i < |who| ==> who[i] < |t| && t[who[i]].energyConsumed <= t[victim].energyConsumed)
    && (t[victim].energyConsumed == t[who[0]].energyConsumed ==> victim == who[0])
  }

  lemma BetterVictim(t: Table, who: seq<nat>, victim: nat, o: nat)
    requires o < |t| && MaximalEnergy(t, who, victim)
    ensures MaximalEnergy(t, who + [o], if t[o].energyConsumed > t[victim].energyConsumed then o else victim)
  {
  }

  /** The table with the in_deadlock flag of the listed processes set to `value`. */
  function Flag(t: Table, who: seq<nat>, value: bool): (r: Table)
    ensures |r| == |t|
  {
    if who == [] then t
    else
      var before := Flag(t, who[..|who| - 1], value);
      var o := who[|who| - 1];
      if o < |t| then before[o := before[o].(inDeadlock := value)] else before
  }

  lemma {:induction false} FlagAt(t: Table, who: seq<nat>, value: bool)
    ensures forall p :: 0 <= p < |t| ==> Flag(t, who, value)[p] == if p in who then t[p].(inDeadlock := value) else t[p]
    ensures SameWaits(t, Flag(t, who, value))
  {
    if who != [] {
      FlagAt(t, who[..|who| - 1], value);
      assert who == who[..|who| - 1] + [who[|who| - 1]];
    }
  }

  lemma FlagTableOk(t: Table, locks: Locks, who: seq<nat>, value: bool)
    requires TableOk(t, locks)
    ensures TableOk(Flag(t, who, value), locks)
  {
    FlagAt(t, who, value);
  }

  lemma FlagOneMore(t: Table, who: seq<nat>, o: nat, value: bool)
    requires o < |t|
    ensures Flag(t, who + [o], value) == Flag(t, who, value)[o := Flag(t, who, value)[o].(inDeadlock := value)]
  {
    assert (who + [o])[..|who|] == who;
  }

  /** The table after recovery: the victim is killed and awake, nobody in the circle is flagged. */
  predicate Recovered(t: Table, t': Table, who: seq<nat>, victim: nat) {
    |t| == |t'| && forall p :: 0 <= p < |t| ==>
      t'[p] == t[p].(
        inDeadlock := t[p].inDeadlock && p !in who,
        killed := t[p].killed || p == victim,
        state := if p == victim && t[p].state.Sleeping? then Runnable else t[p].state)
  }

  /** The process that ran into the deadlock, followed by the processes the recovery visits. */
  function Circle(t: Table, locks: Locks, me: nat, target: nat): (c: seq<nat>)
    requires TableOk(t, locks) && me < |t| && target < |locks|
    ensures |c| > 0 && forall i :: 0 <= i < |c| ==> c[i] < |t|
  {
    [me] + Walk(t, locks, locks[target].pid, t[me].pid, |t|)
  }

  /** When the check said yes, the recovery walk visits exactly the other members of the cycle. */
  lemma WalkIsCycle(t: Table, locks: Locks, me: nat, target: nat)
    requires TableOk(t, locks) && DistinctPids(t) && target < |locks| && me < |t| && !t[me].state.Unused?
    requires t[me].waitingForLock == Some(target) && locks[target].locked
    requires Deadlocks(t, locks, me, target)
    ensures IsCycle(WaitsFor(t, locks), Circle(t, locks, me, target))
  {
    var g := WaitsFor(t, locks);
    var owner := ProcOf(t, locks[target].pid).value;
    var path :| ChainBetween(g, path, owner, me);
    var short := Shorten(g, path, owner, me);
    Pigeonhole(short, |t|);
    WalkFollowsChain(t, locks, me, locks[target].pid, short, |t|);
    ChainBack(g, me, short);
  }

  lemma {:induction false} WalkFollowsChain(t: Table, locks: Locks, me: nat, pid: int, chain: seq<nat>, hops: nat)
    requires TableOk(t, locks) && DistinctPids(t) && me < |t| && !t[me].state.Unused?
    requires ProcOf(t, pid).Some? && ChainBetween(WaitsFor(t, locks), chain, ProcOf(t, pid).value, me)
    requires Distinct(chain) && hops >= |chain|
    ensures Walk(t, locks, pid, t[me].pid, hops) == chain[..|chain| - 1]
    decreases hops
  {
    if |chain| > 1 {
      var g := WaitsFor(t, locks);
      assert g[chain[0]] == Some(chain[1]);
      assert chain[1..][|chain| - 2] == me;
      WalkFollowsChain(t, locks, me, NextPid(t, locks, chain[0]), chain[1..], hops - 1);
      assert [chain[0]] + chain[1..][..|chain| - 2] == chain[..|chain| - 1];
    }
  }

  class Kernel {
    const proc: array<Proc>
    const lock: array<SleepLock>

    ghost predicate Valid()
      reads this, proc, lock
    {
      TableOk(proc[..], lock[..])
    }

    /** The table at boot, in zeroed memory, and locks as initsleeplock leaves them. */
    constructor (nlocks: nat)
      ensures Valid() && fresh(proc) && fresh(lock) && proc.Length == NPROC && lock.Length == nlocks
      ensures forall p :: 0 <= p < NPROC ==> proc[p] == Proc(ProcState.Unused, 0, false, 0, None, false, 0)
      ensures forall l :: 0 <= l < nlocks ==> lock[l] == SleepLock(false, 0)
      ensures DistinctPids(proc[..])
    {
      proc := new Proc[NPROC](_ => Proc(ProcState.Unused, 0, false, 0, None, false, 0));
      lock := new SleepLock[nlocks](_ => SleepLock(false, 0));
    }

    method Pid2Proc(pid: int) returns (r: Option<nat>)
      requires proc.Length == NPROC
      ensures r == ProcOf(proc[..], pid)
    {
      if pid <= 0 {
        return None;
      }
      for p := 0 to NPROC
        invariant ProcOf(proc[..], pid) == ProcOf(proc[..], pid, p)
      {
        if proc[p].pid == pid && !proc[p].state.Unused? {
          return Some(p);
        }
      }
      return None;
    }

    /** NPROC hops decide reachability exactly. */
    method WouldCreateDeadlock(current: Option<nat>, target: Option<nat>) returns (r: bool)
      requires Valid() && DistinctPids(proc[..])
      requires current.Some? ==> current.value < NPROC && !proc[current.value].state.Unused?
      requires target.Some? ==> target.value < lock.Length
      ensures r <==> current.Some? && target.Some? && Deadlocks(proc[..], lock[..], current.value, target.value)
    {
      if current.None? || target.None? {
        return false;
      }
      var me := current.value;
      ghost var t, locks := proc[..], lock[..];
      ghost var g := WaitsFor(t, locks);
      ghost var start := ProcOf(t, locks[target.value].pid);
      ghost var walk: seq<nat> := [];
      var ownerPid := lock[target.value].pid;
      var hops := 0;
      while ownerPid > 0 && hops < NPROC
        invariant hops == |walk| <= NPROC && me !in walk
        invariant if walk == [] then ProcOf(t, ownerPid) == start
                  else IsChain(g, walk) && start == Some(walk[0]) && g[walk[|walk| - 1]] == ProcOf(t, ownerPid)
        decreases NPROC - hops
      {
        var owner := Pid2Proc(ownerPid);
        if owner.None? {
          if walk != [] {
            EndedWalkMisses(g, walk, me);
          }
          return false;
        }
        walk := walk + [owner.value];
        if proc[owner.value].pid == proc[me].pid {
          assert ChainBetween(g, walk, start.value, me);
          return true;
        }
        var nextLock := proc[owner.value].waitingForLock;
        if nextLock.None? || !lock[nextLock.value].locked {
          EndedWalkMisses(g, walk, me);
          return false;
        }
        ownerPid := lock[nextLock.value].pid;
        hops := hops + 1;
      }
      if walk != [] {
        if hops == NPROC {
          LongWalkMisses(g, walk, me);
        } else {
          EndedWalkMisses(g, walk, me);
        }
      }
      return false;
    }

    /** One stop of either walk: find the owner, set its flag, and look up whose lock it waits for. */
    method VisitOwner(ownerPid: int, value: bool, ghost t: Table, ghost who: seq<nat>)
      returns (owner: Option<nat>, nextPid: int)
      requires TableOk(t, lock[..]) && proc[..] == Flag(t, who, value)
      modifies proc
      ensures owner == ProcOf(t, ownerPid)
      ensures owner.None? ==> proc[..] == old(proc[..])
      ensures owner.Some? ==>
              proc[..] == Flag(t, who + [owner.value], value) && nextPid == NextPid(t, lock[..], owner.value)
      ensures owner.Some? ==> proc[owner.value].energyConsumed == t[owner.value].energyConsumed
    {
      FlagAt(t, who, value);
      SameProcOf(t, proc[..], ownerPid, 0);
      owner := Pid2Proc(ownerPid);
      nextPid := 0;
      if owner.None? {
        return;
      }
      var o := owner.value;
      FlagOneMore(t, who, o, value);
      proc[o] := proc[o].(inDeadlock := value);
      var nextLock := proc[o].waitingForLock;
      if nextLock.None? || !lock[nextLock.value].locked {
        return;
      }
      nextPid := lock[nextLock.value].pid;
    }

    /** A stop of the first walk, where the owner becomes the victim if it has used more than the victim so far. */
    method MarkOwner(ownerPid: int, best: nat, energy: nat, ghost t: Table, ghost who: seq<nat>)
      returns (owner: Option<nat>, nextPid: int, victim: nat, maxEnergy: nat)
      requires TableOk(t, lock[..]) && proc[..] == Flag(t, who, true)
      requires MaximalEnergy(t, who, best) && energy == t[best].energyConsumed
      modifies proc
      ensures owner == ProcOf(t, ownerPid)
      ensures owner.None? ==> proc[..] == old(proc[..]) && victim == best && maxEnergy == energy
      ensures owner.Some? ==>
                && proc[..] == Flag(t, who + [owner.value], true) && nextPid == NextPid(t, lock[..], owner.value)
                && MaximalEnergy(t, who + [owner.value], victim) && maxEnergy == t[victim].energyConsumed
    {
      victim, maxEnergy := best, energy;
      owner, nextPid := VisitOwner(ownerPid, true, t, who);
      if owner.Some? {
        BetterVictim(t, who, victim, owner.value);
        if proc[owner.value].energyConsumed > maxEnergy {
          maxEnergy := proc[owner.value].energyConsumed;
          victim := owner.value;
        }
      }
    }

    /** First walk of the recovery: flag everybody on the walk and pick the victim. */
    method MarkWalk(me: nat, target: nat) returns (victim: nat)
      requires Valid() && me < NPROC && target < lock.Length
      modifies proc
      ensures Valid()
      ensures proc[..] == Flag(old(proc[..]), Circle(old(proc[..]), lock[..], me, target), true)
      ensures MaximalEnergy(old(proc[..]), Circle(old(proc[..]), lock[..], me, target), victim)
    {
      ghost var t, locks := proc[..], lock[..];
      ghost var circle := Circle(t, locks, me, target);
      var startPid := proc[me].pid;
      proc[me] := proc[me].(inDeadlock := true);
      victim := me;
      var maxEnergy := proc[me].energyConsumed;
      ghost var who: seq<nat> := [me];
      var ownerPid := lock[target].pid;
      var hops := 0;
      while ownerPid > 0 && ownerPid != startPid && hops < NPROC
        invariant 0 <= hops <= NPROC && lock[..] == locks
        invariant circle == who + Walk(t, locks, ownerPid, startPid, |t| - hops)
        invariant proc[..] == Flag(t, who, true)
        invariant MaximalEnergy(t, who, victim) && maxEnergy == t[victim].energyConsumed
        decreases NPROC - hops
      {
        var owner, nextPid;
        owner, nextPid, victim, maxEnergy := MarkOwner(ownerPid, victim, maxEnergy, t, who);
        if owner.None? {
          break;
        }
        OneMoreStop(who, owner.value, Walk(t, locks, nextPid, startPid, |t| - hops - 1));
        who := who + [owner.value];
        ownerPid := nextPid;
        hops := hops + 1;
      }
      assert circle == who;
      FlagTableOk(t, locks, who, true);
    }

    /** Second walk of the recovery: clear the flags again. */
    method ClearWalk(me: nat, target: nat)
      requires Valid() && me < NPROC && target < lock.Length
      modifies proc
      ensures Valid()
      ensures proc[..] == Flag(old(proc[..]), Circle(old(proc[..]), lock[..], me, target), false)
    {
      ghost var t, locks := proc[..], lock[..];
      ghost var circle := Circle(t, locks, me, target);
      var startPid := proc[me].pid;
      proc[me] := proc[me].(inDeadlock := false);
      ghost var who: seq<nat> := [me];
      var ownerPid := lock[target].pid;
      var hops := 0;
      while ownerPid > 0 && ownerPid != startPid && hops < NPROC
        invariant 0 <= hops <= NPROC && lock[..] == locks
        invariant circle == who + Walk(t, locks, ownerPid, startPid, |t| - hops)
        invariant proc[..] == Flag(t, who, false)
        decreases NPROC - hops
      {
        var owner, nextPid := VisitOwner(ownerPid, false, t, who);
        if owner.None? {
          break;
        }
        OneMoreStop(who, owner.value, Walk(t, locks, nextPid, startPid, |t| - hops - 1));
        who := who + [owner.value];
        ownerPid := nextPid;
        hops := hops + 1;
      }
      assert circle == who;
      FlagTableOk(t, locks, who, false);
    }

    /** energy_aware_deadlock_recovery: kill the hungriest process on the walk and undo the flags. */
    method EnergyAwareRecovery(me: nat, target: nat) returns (pid: int, ghost victim: nat)
      requires Valid() && me < NPROC && target < lock.Length
      modifies proc
      ensures Valid()
      ensures MaximalEnergy(old(proc[..]), Circle(old(proc[..]), lock[..], me, target), victim)
      ensures pid == old(proc[..])[victim].pid
      ensures Recovered(old(proc[..]), proc[..], Circle(old(proc[..]), lock[..], me, target), victim)
    {
      ghost var t, locks := proc[..], lock[..];
      var v := MarkWalk(me, target);
      victim := v;
      proc[v] := proc[v].(killed := true);
      if proc[v].state.Sleeping? {
        proc[v] := proc[v].(state := Runnable);
      }
      ghost var killed := proc[..];
      FlagsUndone(t, killed, Circle(t, locks, me, target), v);
      SameWalk(t, killed, locks, locks[target].pid, t[me].pid, |t|);
      ClearWalk(me, target);
      pid := proc[v].pid;
    }

    /** A deadlock is counted and then broken. */
    method ReportDeadlock(me: nat, target: nat) returns (ghost victim: nat)
      requires Valid() && me < NPROC && target < lock.Length
      modifies proc
      ensures Valid()
      ensures MaximalEnergy(old(proc[..]), Circle(old(proc[..]), lock[..], me, target), victim)
      ensures Recovered(Reported(old(proc[..]), me), proc[..], Circle(old(proc[..]), lock[..], me, target), victim)
    {
      ghost var t := proc[..];
      proc[me] := proc[me].(deadlockReports := (proc[me].deadlockReports + 1) % UINT64);
      assert proc[..] == Reported(t, me);
      ReportedCircle(t, lock[..], me, target);
      var _, v := EnergyAwareRecovery(me, target);
      victim := v;
    }

    /**
     One round of the wait loop of acquiresleep on a locked lock: record the wait, check, recover.
     A recovery takes place exactly when the new wait closes a cycle, and acts on that cycle.
     */
    method WaitRound(me: nat, target: nat) returns (deadlock: bool, ghost victim: nat)
      requires Valid() && DistinctPids(proc[..]) && me < NPROC && !proc[me].state.Unused?
      requires target < lock.Length && lock[target].locked
      modifies proc
      ensures Valid()
      ensures var t := old(proc[..])[me := old(proc[me]).(waitingForLock := Some(target))];
              && (deadlock <==> OnCycle(WaitsFor(t, lock[..]), me))
              && (!deadlock ==> proc[..] == t)
              && (deadlock ==>
                    var c := Circle(t, lock[..], me, target);
                    && IsCycle(WaitsFor(t, lock[..]), c) && MaximalEnergy(t, c, victim)
                    && Recovered(Reported(t, me), proc[..], c, victim))
    {
      proc[me] := proc[me].(waitingForLock := Some(target));
      ghost var t := proc[..];
      victim := me;
      deadlock := WouldCreateDeadlock(Some(me), Some(target));
      if deadlock {
        WalkIsCycle(t, lock[..], me, target);
        assert me in Circle(t, lock[..], me, target);
        victim := ReportDeadlock(me, target);
      } else if OnCycle(WaitsFor(t, lock[..]), me) {
        CycleDeadlocks(t, lock[..], me, target);
      }
    }
  }

  /** The process that ran into the deadlock counts it. */
  function Reported(t: Table, me: nat): (r: Table)
    requires me < |t|
    ensures |r| == |t|
  {
    t[me := t[me].(deadlockReports := (t[me].deadlockReports + 1) % UINT64)]
  }

  lemma ReportedCircle(t: Table, locks: Locks, me: nat, target: nat)
    requires TableOk(t, locks) && me < |t| && target < |locks|
    ensures TableOk(Reported(t, me), locks) &&
            Circle(Reported(t, me), locks, me, target) == Circle(t, locks, me, target)
  {
    SameWalk(t, Reported(t, me), locks, locks[target].pid, t[me].pid, |t|);
  }

  /** Somebody on a cycle can be reached from the owner of the lock they wait for. */
  lemma CycleDeadlocks(t: Table, locks: Locks, me: nat, target: nat)
    requires TableOk(t, locks) && me < |t| && target < |locks|
    requires t[me].waitingForLock == Some(target) && locks[target].locked
    requires OnCycle(WaitsFor(t, locks), me)
    ensures Deadlocks(t, locks, me, target)
  {
    CycleReturns(WaitsFor(t, locks), me);
  }

  lemma FlagsUndone(t: Table, killed: Table, who: seq<nat>, victim: nat)
    requires victim < |t|
    requires var flagged := Flag(t, who, true);
             killed == flagged[victim := flagged[victim].(killed := true,
               state := if flagged[victim].state.Sleeping? then Runnable else flagged[victim].state)]
    ensures SameWaits(t, killed)
    ensures Recovered(t, Flag(killed, who, false), who, victim)
  {
    FlagAt(t, who, true);
    FlagAt(killed, who, false);
  }

  lemma OneMoreStop(who: seq<nat>, o: nat, rest: seq<nat>)
    ensures who + ([o] + rest) == (who + [o]) + rest
  {
  }

  lemma {:induction false} SameWalk(t: Table, t': Table, locks: Locks, ownerPid: int, startPid: int, hops: nat)
    requires TableOk(t, locks) && TableOk(t', locks) && SameWaits(t, t')
    ensures Walk(t, locks, ownerPid, startPid, hops) == Walk(t', locks, ownerPid, startPid, hops)
    decreases hops
  {
    SameProcOf(t, t', ownerPid, 0);
    if hops > 0 && ProcOf(t, ownerPid).Some? {
      SameWalk(t, t', locks, NextPid(t, locks, ProcOf(t, ownerPid).value), startPid, hops - 1);
    }
  }
}
