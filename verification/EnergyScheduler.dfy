/**
 The energy accounting of the timer interrupt and the multi-pass choice of the scheduler.
 */
module EnergyScheduler {
  import opened Collections
  import opened Params

  const DEFAULT_ENERGY_BUDGET := 1000
  const LOW_ENERGY_THRESHOLD := 100
  const ENERGY_PER_TICK := 1

  // ---- accounting ----

  /** The two 64-bit counters of a process. */
  datatype Energy = Energy(budget: nat, consumed: nat)

  /** A process is charged by clockintr and, when it was in user mode, once more by usertrap. */
  datatype Charge = ByClock | ByUserTrap

  function Charged(e: Energy, charge: Charge): Energy {
    var consumed := (e.consumed + ENERGY_PER_TICK) % UINT64;
    match charge
    case ByClock => Energy(if e.budget >= ENERGY_PER_TICK then e.budget - ENERGY_PER_TICK else 0, consumed)
    case ByUserTrap => Energy(if e.budget > 0 then e.budget - ENERGY_PER_TICK else e.budget, consumed)
  }

  /** The counters after a run of charges to a process that allocproc has just set up. */
  function AfterCharges(run: seq<Charge>): Energy {
    if run == [] then Energy(DEFAULT_ENERGY_BUDGET, 0)
    else Charged(AfterCharges(run[..|run| - 1]), run[|run| - 1])
  }

  predicate Balanced(e: Energy) {
    e.budget == if e.consumed <= DEFAULT_ENERGY_BUDGET then DEFAULT_ENERGY_BUDGET - e.consumed else 0
  }

  lemma ModStep(n: nat)
    ensures (n % UINT64 + 1) % UINT64 == (n + 1) % UINT64
  {
    assert n == n / UINT64 * UINT64 + n % UINT64;
  }

  /** What the counters hold after any run, wrap-around included. */
  lemma {:induction false} CountersAfterRun(run: seq<Charge>)
    ensures AfterCharges(run).consumed == |run| % UINT64
    ensures AfterCharges(run).budget == if |run| <= DEFAULT_ENERGY_BUDGET then DEFAULT_ENERGY_BUDGET - |run| else 0
  {
    if run != [] {
      CountersAfterRun(run[..|run| - 1]);
      ModStep(|run| - 1);
    }
  }

  /**
   Budget and consumption stay complementary exactly until the 64-bit consumption counter wraps
   round to a value below the default budget.
   */
  lemma BalancedIff(run: seq<Charge>)
    ensures Balanced(AfterCharges(run)) <==> |run| < UINT64 || |run| % UINT64 >= DEFAULT_ENERGY_BUDGET
  {
    CountersAfterRun(run);
  }

  // ---- choice ----

  datatype Proc = Proc(
    state: ProcState,
    pid: int,
    parent: Option<nat>,
    name: string,
    energy: Energy,
    waitingTick: int,
    lastScheduledTick: nat,
    waits: Waits)

  /** What a process sleeps on, whether it was killed, its exit status, and the records of the two deadlock checks. */
  datatype Waits = Waits(
    chan: Option<nat>,
    killed: bool,
    xstate: int,
    waitingForLock: Option<nat>,
    deadlockReports: nat,
    inDeadlock: bool,
    holdingRes: seq<bool>,
    waitingRes: int)

  function NoRes(): seq<bool> {
    seq(NRES, _ => false)
  }

  function NoWaits(): Waits {
    Waits(None, false, 0, None, 0, false, NoRes(), -1)
  }

  type Table = seq<Proc>

  predicate TableOk(t: Table) {
    |t| == NPROC && forall p :: 0 <= p < |t| && t[p].parent.Some? ==> t[p].parent.value < |t|
  }

  /** A RUNNABLE child of a process named schedtest. */
  predicate Child(t: Table, p: nat)
    requires TableOk(t) && p < |t|
  {
    t[p].state.Runnable? && t[p].parent.Some? && t[t[p].parent.value].name == "schedtest"
  }

  predicate Candidate(t: Table, p: nat, rich: bool)
    requires TableOk(t) && p < |t|
  {
    Child(t, p) && (rich ==> t[p].energy.budget > LOW_ENERGY_THRESHOLD)
  }

  /** chosen is the candidate with the lowest pid among the first n slots, the first one in case of a tie. */
  predicate LowestPid(t: Table, chosen: Option<nat>, rich: bool, n: nat)
    requires TableOk(t) && n <= |t|
  {
    match chosen
    case None => forall p :: 0 <= p < n ==> !Candidate(t, p, rich)
    case Some(c) =>
      && c < n && Candidate(t, c, rich)
      && forall p :: 0 <= p < n && Candidate(t, p, rich) ==> t[c].pid < t[p].pid || (t[c].pid == t[p].pid && c <= p)
  }

  predicate FirstRunnable(t: Table, chosen: Option<nat>) {
    match chosen
    case None => forall p :: 0 <= p < |t| ==> !t[p].state.Runnable?
    case Some(c) => c < |t| && t[c].state.Runnable? && forall p :: 0 <= p < c ==> !t[p].state.Runnable?
  }

  /** Exactly the chosen process's lock is held. */
  predicate HoldsOnly(held: seq<bool>, chosen: Option<nat>) {
    |held| == NPROC && (chosen.Some? ==> chosen.value < NPROC) &&
      forall p :: 0 <= p < NPROC ==> (held[p] <==> chosen == Some(p))
  }

  /** The outcome of the three passes. */
  predicate Choice(t: Table, chosen: Option<nat>)
    requires TableOk(t)
  {
    if exists p :: 0 <= p < |t| && Candidate(t, p, true) then LowestPid(t, chosen, true, |t|)
    else if exists p :: 0 <= p < |t| && Candidate(t, p, false) then LowestPid(t, chosen, false, |t|)
    else FirstRunnable(t, chosen)
  }

  // ---- the charges behind the counters ----

  ghost predicate ChargedAt(t: Table, runs: seq<seq<Charge>>, p: int)
    requires |runs| == |t| && 0 <= p < |t|
  {
    !t[p].state.Unused? ==> t[p].energy == AfterCharges(runs[p])
  }

  /** runs[p] lists the charges to process p since its allocation. */
  ghost predicate Tracked(t: Table, runs: seq<seq<Charge>>) {
    |runs| == |t| && forall p {:trigger ChargedAt(t, runs, p)} :: 0 <= p < |t| ==> ChargedAt(t, runs, p)
  }

  lemma TrackedCharge(t: Table, runs: seq<seq<Charge>>, p: nat, proc: Proc, charge: Charge)
    requires Tracked(t, runs) && p < |t| && !t[p].state.Unused? && proc.energy == Charged(t[p].energy, charge)
    ensures Tracked(t[p := proc], runs[p := runs[p] + [charge]])
  {
    var run := runs[p] + [charge];
    assert run[..|run| - 1] == runs[p];
    assert ChargedAt(t, runs, p);
    var t', runs' := t[p := proc], runs[p := run];
    forall q | 0 <= q < |t|
      ensures ChargedAt(t', runs', q)
    {
      assert ChargedAt(t, runs, q);
    }
  }

  /** A change that gives no unused process a use and touches no energy counter. */
  predicate SameEnergy(t: Table, t': Table) {
    |t'| == |t| &&
      forall p :: 0 <= p < |t| ==> t'[p].state.Unused? || (!t[p].state.Unused? && t'[p].energy == t[p].energy)
  }

  lemma TrackedSame(t: Table, t': Table, runs: seq<seq<Charge>>)
    requires Tracked(t, runs) && SameEnergy(t, t')
    ensures Tracked(t', runs)
  {
    forall p | 0 <= p < |t|
      ensures ChargedAt(t', runs, p)
    {
      assert ChargedAt(t, runs, p);
    }
  }

  lemma TrackedNew(t: Table, runs: seq<seq<Charge>>, p: nat, proc: Proc)
    requires Tracked(t, runs) && p < |t| && proc.energy == Energy(DEFAULT_ENERGY_BUDGET, 0)
    ensures Tracked(t[p := proc], runs[p := []])
  {
    var t', runs' := t[p := proc], runs[p := []];
    forall q | 0 <= q < |t|
      ensures ChargedAt(t', runs', q)
    {
      assert ChargedAt(t, runs, q);
    }
  }

  /** Every allocated process has its counters in balance. */
  predicate AllBalanced(t: Table) {
    forall p :: 0 <= p < |t| && !t[p].state.Unused? ==> Balanced(t[p].energy)
  }

  lemma RunsKeepBalance(t: Table, runs: seq<seq<Charge>>)
    requires Tracked(t, runs) && forall p :: 0 <= p < |t| ==> |runs[p]| < UINT64
    ensures AllBalanced(t)
  {
    forall p | 0 <= p < |t| && !t[p].state.Unused?
      ensures Balanced(t[p].energy)
    {
      assert ChargedAt(t, runs, p);
      BalancedIff(runs[p]);
    }
  }

  // ---- what the choice means ----

  /**
   rested marks the processes that have used little energy. A child that is not rested never runs before a RUNNABLE
   child that is; the lowest pid wins among equals; other processes run only when there is no RUNNABLE child; and the
   CPU idles only when nothing is RUNNABLE.
   */
  ghost predicate Rule(t: Table, chosen: Option<nat>, rested: seq<bool>)
    requires TableOk(t) && |rested| == |t|
  {
    && (chosen.None? <==> forall p :: 0 <= p < |t| ==> !t[p].state.Runnable?)
    && (chosen.Some? ==> chosen.value < |t|)
    && (forall p :: 0 <= p < |t| && Child(t, p) && rested[p] ==>
          chosen.Some? && Child(t, chosen.value) && rested[chosen.value] && t[chosen.value].pid <= t[p].pid)
    && (chosen.Some? && Child(t, chosen.value) ==>
          forall p :: 0 <= p < |t| && Child(t, p) ==>
            t[chosen.value].pid <= t[p].pid || (rested[chosen.value] && !rested[p]))
    && (chosen.Some? && !Child(t, chosen.value) ==> forall p :: 0 <= p < |t| ==> !Child(t, p))
  }

  lemma ChoiceFollowsRule(t: Table, chosen: Option<nat>, rested: seq<bool>)
    requires TableOk(t) && |rested| == |t| && Choice(t, chosen)
    requires forall p :: 0 <= p < |t| && Child(t, p) ==> (rested[p] <==> t[p].energy.budget > LOW_ENERGY_THRESHOLD)
    ensures Rule(t, chosen, rested)
  {
    forall p | 0 <= p < |t| && Child(t, p)
      ensures Candidate(t, p, false) && (Candidate(t, p, true) <==> rested[p])
    {
    }
  }

  /** Fewer than 900 charges; 900 is the default budget minus the threshold. */
  ghost function FewCharges(runs: seq<seq<Charge>>): (r: seq<bool>)
    ensures |r| == |runs|
  {
    seq(|runs|, p requires 0 <= p < |runs| => |runs[p]| < 900)
  }

  /** energy_consumed below 900. */
  ghost function LittleConsumed(t: Table): (r: seq<bool>)
    ensures |r| == |t|
  {
    seq(|t|, p requires 0 <= p < |t| => t[p].energy.consumed < 900)
  }

  /** The choice goes by the number of charges since allocation, however many there are, */
  lemma ChoiceByCharges(t: Table, runs: seq<seq<Charge>>, chosen: Option<nat>)
    requires TableOk(t) && Tracked(t, runs) && Choice(t, chosen)
    ensures Rule(t, chosen, FewCharges(runs))
  {
    forall p | 0 <= p < |t| && Child(t, p)
      ensures |runs[p]| < 900 <==> t[p].energy.budget > LOW_ENERGY_THRESHOLD
    {
      assert ChargedAt(t, runs, p);
      CountersAfterRun(runs[p]);
    }
    ChoiceFollowsRule(t, chosen, FewCharges(runs));
  }

  /** The 64-bit counter tells fewer than 900 charges from more. */
  predicate CounterTells(n: nat) {
    n < UINT64 || n % UINT64 >= 900
  }

  /** The budget is above the threshold just when the consumption is below 900: exactly if the counter still tells. */
  lemma RichIffLittleConsumed(run: seq<Charge>)
    ensures (AfterCharges(run).budget > LOW_ENERGY_THRESHOLD <==> AfterCharges(run).consumed < 900) <==>
            CounterTells(|run|)
  {
    CountersAfterRun(run);
  }

  /** and so by energy_consumed as long as the counters tell. */
  lemma ChoiceByConsumption(t: Table, runs: seq<seq<Charge>>, chosen: Option<nat>)
    requires TableOk(t) && Tracked(t, runs) && Choice(t, chosen)
    requires forall p :: 0 <= p < |t| ==> CounterTells(|runs[p]|)
    ensures Rule(t, chosen, LittleConsumed(t))
  {
    forall p | 0 <= p < |t| && Child(t, p)
      ensures t[p].energy.consumed < 900 <==> t[p].energy.budget > LOW_ENERGY_THRESHOLD
    {
      assert ChargedAt(t, runs, p);
      RichIffLittleConsumed(runs[p]);
    }
    ChoiceFollowsRule(t, chosen, LittleConsumed(t));
  }

  /** The table in which slot 0 is schedtest and slots 1 and 2 its RUNNABLE children with the given counters. */
  function TwoChildren(n: nat, first: Energy, second: Energy): Table
    requires n > 2
  {
    seq(n, p =>
      if p == 0 then Proc(Sleeping, 1, None, "schedtest", Energy(DEFAULT_ENERGY_BUDGET, 0), 0, 0, NoWaits())
      else if p == 1 then Proc(Runnable, 2, Some(0), "child", first, 0, 0, NoWaits())
      else if p == 2 then Proc(Runnable, 3, Some(0), "child", second, 0, 0, NoWaits())
      else NO_PROC)
  }

  lemma SecondIsChosen(n: nat, first: Energy, second: Energy)
    requires n == NPROC && first.budget <= LOW_ENERGY_THRESHOLD < second.budget
    ensures var t := TwoChildren(n, first, second);
            TableOk(t) && Child(t, 1) && t[1].energy == first && t[1].pid < t[2].pid && Choice(t, Some(2))
  {
    var t := TwoChildren(n, first, second);
    assert forall p :: 0 <= p < n && Child(t, p) ==> p == 1 || p == 2;
    assert Candidate(t, 2, true);
  }

  /**
   After 2^64 charges energy_consumed is 0 again while the budget is exhausted: the second of two children runs although
   the first has the lower pid and, by its counter, has consumed nothing.
   */
  lemma WrapMisleads(run: seq<Charge>)
    requires |run| == UINT64
    ensures var t := TwoChildren(NPROC, AfterCharges(run), AfterCharges([]));
            && TableOk(t) && !Balanced(t[1].energy) && t[1].energy.consumed == 0
            && Choice(t, Some(2)) && !Rule(t, Some(2), LittleConsumed(t))
  {
    CountersAfterRun(run);
    SecondIsChosen(NPROC, AfterCharges(run), AfterCharges([]));
    var t := TwoChildren(NPROC, AfterCharges(run), AfterCharges([]));
    assert LittleConsumed(t)[1];
  }

  /** The process after waiting for one more round, if it is a RUNNABLE schedtest child. */
  function Aged(t: Table, p: nat): Proc
    requires TableOk(t) && p < |t|
  {
    if Child(t, p) then t[p].(waitingTick := t[p].waitingTick + 1) else t[p]
  }

  /** The state in which the scheduler switches to the chosen process. */
  predicate Dispatched(t: Table, t': Table, c: nat)
    requires TableOk(t) && c < |t|
  {
    && |t'| == |t|
    && t'[c] == t[c].(state := Running, lastScheduledTick := 0)
    && forall p :: 0 <= p < |t| && p != c ==> t'[p] == Aged(t, p)
  }

  /** A running process is one whose state says so. */
  predicate CurrentOk(t: Table, current: Option<nat>) {
    current.Some? ==> current.value < |t| && t[current.value].state.Running?
  }

  /** Process p is charged, and nothing else changes. */
  predicate ChargedOnly(t: Table, t': Table, p: nat, charge: Charge)
    requires p < |t|
  {
    t' == t[p := t[p].(energy := Charged(t[p].energy, charge),
      lastScheduledTick := (t[p].lastScheduledTick + 1) % UINT64)]
  }

  /** A new process, whatever its slot was used for before: nothing that another process did or suffered is left. */
  function NewProc(pid: int): Proc {
    Proc(Used, pid, None, "", Energy(DEFAULT_ENERGY_BUDGET, 0), 0, 0, NoWaits())
  }

  /** A slot as freeproc leaves it, with the waiting_tick of its last process. */
  function Reaped(p: Proc): Proc {
    Proc(ProcState.Unused, 0, None, "", Energy(0, 0), p.waitingTick, 0, NoWaits())
  }

  /** A slot at boot: all zero, so its waiting_res is not yet -1. */
  const NO_PROC := Proc(ProcState.Unused, 0, None, "", Energy(0, 0), 0, 0, NoWaits().(waitingRes := 0))

  /** Every unused slot is clear of what allocproc does not set. */
  predicate BlankSlots(t: Table) {
    forall p :: 0 <= p < |t| && t[p].state.Unused? ==> Blank(t[p])
  }

  predicate Blank(p: Proc) {
    p.parent.None? && p.name == "" && p.waits.chan.None? && !p.waits.killed && p.waits.xstate == 0
  }

  /** What can happen on the processor. */
  datatype Op =
    | Allocate(memory: bool)
    | Reap(slot: nat)                                              // freeproc on a zombie
    | Change(slot: nat, state: ProcState, parent: Option<nat>, name: string, waits: Waits)  // what else is done to one
    | Dispatch                                                     // a round of the scheduler
    | ClockTick                                                    // clockintr
    | UserTick                                                     // the timer branch of usertrap
    | Leave(next: ProcState)                                       // the running process gives up the CPU

  class Cpu {
    const proc: array<Proc>
    const held: array<bool>  // the process locks that this CPU holds
    var current: Option<nat>
    var nextPid: int
    var timerInterval: int
    ghost var runs: seq<seq<Charge>>

    ghost predicate Valid()
      reads this, proc, held
    {
      && TableOk(proc[..]) && held.Length == NPROC && Tracked(proc[..], runs) && CurrentOk(proc[..], current)
      && BlankSlots(proc[..])
    }

    /** procinit, on one processor. */
    constructor ()
      ensures Valid() && fresh(proc) && fresh(held) && HoldsOnly(held[..], None) && current.None?
      ensures forall p :: 0 <= p < NPROC ==> runs[p] == []
    {
      proc := new Proc[NPROC](_ => NO_PROC);
      held := new bool[NPROC](_ => false);
      current, nextPid, timerInterval := None, 1, 1000000;
      runs := seq(NPROC, _ => []);
      new;
      assert forall p :: 0 <= p < NPROC ==> ChargedAt(proc[..], runs, p);
    }

    /** acquire panics when this CPU already holds the lock. */
    method Acquire(p: nat)
      requires p < held.Length && !held[p]
      modifies held
      ensures held[..] == old(held[..])[p := true]
    {
      held[p] := true;
    }

    /** release panics when this CPU does not hold the lock. */
    method Release(p: nat)
      requires p < held.Length && held[p]
      modifies held
      ensures held[..] == old(held[..])[p := false]
    {
      held[p] := false;
    }

    /** The first pass (rich) and the second pass (not rich) over the process table. */
    method PickChild(rich: bool) returns (chosen: Option<nat>)
      requires Valid() && HoldsOnly(held[..], None)
      modifies held
      ensures HoldsOnly(held[..], chosen) && LowestPid(proc[..], chosen, rich, NPROC)
    {
      chosen := None;
      for p := 0 to NPROC
        invariant HoldsOnly(held[..], chosen) && LowestPid(proc[..], chosen, rich, p)
      {
        Acquire(p);
        if proc[p].state.Runnable? && proc[p].parent.Some? && proc[proc[p].parent.value].name == "schedtest" &&
           (!rich || proc[p].energy.budget > LOW_ENERGY_THRESHOLD) {
          if chosen.None? || proc[p].pid < proc[chosen.value].pid {
            if chosen.Some? {
              Release(chosen.value);
            }
            chosen := Some(p);
            continue;
          }
        }
        Release(p);
      }
    }

    /** The fallback pass. */
    method PickFirst() returns (chosen: Option<nat>)
      requires Valid() && HoldsOnly(held[..], None)
      modifies held
      ensures HoldsOnly(held[..], chosen) && FirstRunnable(proc[..], chosen)
    {
      for p := 0 to NPROC
        invariant HoldsOnly(held[..], None)
        invariant forall q :: 0 <= q < p ==> !proc[q].state.Runnable?
      {
        Acquire(p);
        if proc[p].state.Runnable? {
          return Some(p);
        }
        Release(p);
      }
      return None;
    }

    /** All three passes: the choice, with only the chosen process's lock held. */
    method Choose() returns (chosen: Option<nat>)
      requires Valid() && HoldsOnly(held[..], None)
      modifies held
      ensures HoldsOnly(held[..], chosen) && Choice(proc[..], chosen)
    {
      chosen := PickChild(true);
      if chosen.None? {
        chosen := PickChild(false);
      }
      if chosen.None? {
        chosen := PickFirst();
      }
    }

    /** The loop that counts a round of waiting for every other RUNNABLE schedtest child. */
    method AgeOthers(c: nat)
      requires Valid() && c < NPROC && HoldsOnly(held[..], Some(c))
      modifies proc, held
      ensures Valid() && HoldsOnly(held[..], Some(c))
      ensures proc[c] == old(proc[c])
      ensures forall p :: 0 <= p < NPROC && p != c ==> proc[p] == Aged(old(proc[..]), p)
    {
      ghost var t := proc[..];
      for p := 0 to NPROC
        invariant HoldsOnly(held[..], Some(c))
        invariant forall q :: 0 <= q < NPROC ==> proc[q] == if q < p && q != c then Aged(t, q) else t[q]
      {
        if p == c {
          continue;
        }
        Acquire(p);
        if proc[p].state.Runnable? && proc[p].parent.Some? && proc[proc[p].parent.value].name == "schedtest" {
          proc[p] := proc[p].(waitingTick := proc[p].waitingTick + 1);
        }
        Release(p);
      }
      TrackedSame(t, proc[..], runs);
    }

    /** One round of the scheduler up to the context switch. */
    method Round() returns (chosen: Option<nat>)
      requires Valid() && HoldsOnly(held[..], None) && current.None?
      modifies this`current, this`timerInterval, proc, held
      ensures Valid() && HoldsOnly(held[..], chosen) && current == chosen
      ensures Choice(old(proc[..]), chosen) && Rule(old(proc[..]), chosen, FewCharges(runs))
      ensures (forall p :: 0 <= p < NPROC ==> CounterTells(|runs[p]|)) ==>
              Rule(old(proc[..]), chosen, LittleConsumed(old(proc[..])))
      ensures chosen.None? ==> proc[..] == old(proc[..])
      ensures chosen.Some? ==> Dispatched(old(proc[..]), proc[..], chosen.value)
      ensures timerInterval == if chosen.Some? then 1000000
              else if old(timerInterval) == 1000000 then 10000000 else old(timerInterval)
    {
      ghost var t := proc[..];
      chosen := Choose();
      ChoiceByCharges(t, runs, chosen);
      if forall p :: 0 <= p < NPROC ==> CounterTells(|runs[p]|) {
        ChoiceByConsumption(t, runs, chosen);
      }
      if chosen.None? {
        if timerInterval == 1000000 {
          timerInterval := 10000000;
        }
      } else {
        Switch(chosen.value);
      }
    }

    /** What the scheduler does to the chosen process, whose lock it holds, and to those that wait. */
    method Switch(c: nat)
      requires Valid() && c < NPROC && HoldsOnly(held[..], Some(c)) && proc[c].state.Runnable?
      modifies this`current, this`timerInterval, proc, held
      ensures Valid() && HoldsOnly(held[..], Some(c)) && current == Some(c) && timerInterval == 1000000
      ensures Dispatched(old(proc[..]), proc[..], c)
    {
      ghost var t := proc[..];
      AgeOthers(c);
      if timerInterval != 1000000 {
        timerInterval := 1000000;
      }
      proc[c] := proc[c].(state := Running);
      proc[c] := proc[c].(lastScheduledTick := 0);
      current := Some(c);
      TrackedSame(t, proc[..], runs);
    }

    /** The charge that clockintr makes to the running process, if there is one. */
    method ClockCharge()
      requires Valid() && HoldsOnly(held[..], None)
      modifies this`runs, proc, held
      ensures Valid() && HoldsOnly(held[..], None)
      ensures current.None? ==> proc[..] == old(proc[..]) && runs == old(runs)
      ensures current.Some? ==>
                var p := current.value;
                && p < NPROC && ChargedOnly(old(proc[..]), proc[..], p, ByClock)
                && |old(runs)| == NPROC && runs == old(runs)[p := old(runs)[p] + [ByClock]]
    {
      if current.Some? {
        var p := current.value;
        ghost var t := proc[..];
        Acquire(p);
        var e := proc[p].energy;
        e := e.(consumed := (e.consumed + ENERGY_PER_TICK) % UINT64);
        if e.budget >= ENERGY_PER_TICK {
          e := e.(budget := e.budget - ENERGY_PER_TICK);
        } else {
          e := e.(budget := 0);
        }
        proc[p] := proc[p].(energy := e, lastScheduledTick := (proc[p].lastScheduledTick + 1) % UINT64);
        Release(p);
        TrackedCharge(t, runs, p, proc[p], ByClock);
        assert proc[..] == t[p := proc[p]];
        runs := runs[p := runs[p] + [ByClock]];
      }
    }

    /** The charge that usertrap makes to the running process on a timer interrupt from user mode. */
    method UserTrapCharge()
      requires Valid() && current.Some?
      modifies this`runs, proc
      ensures Valid()
      ensures var p := current.value;
              && p < NPROC && ChargedOnly(old(proc[..]), proc[..], p, ByUserTrap)
              && |old(runs)| == NPROC && runs == old(runs)[p := old(runs)[p] + [ByUserTrap]]
    {
      var p := current.value;
      ghost var t := proc[..];
      var e := proc[p].energy;
      e := e.(consumed := (e.consumed + ENERGY_PER_TICK) % UINT64);
      if e.budget > 0 {
        e := e.(budget := e.budget - ENERGY_PER_TICK);
      }
      proc[p] := proc[p].(energy := e, lastScheduledTick := (proc[p].lastScheduledTick + 1) % UINT64);
      TrackedCharge(t, runs, p, proc[p], ByUserTrap);
      assert proc[..] == t[p := proc[p]];
      runs := runs[p := runs[p] + [ByUserTrap]];
    }

    /** allocproc: the first unused slot, set up and locked; memory says whether its pages could be had. */
    method Allocproc(memory: bool) returns (r: Option<nat>)
      requires Valid() && HoldsOnly(held[..], None)
      modifies this`nextPid, this`runs, proc, held
      ensures Valid() && HoldsOnly(held[..], r)
      ensures r.Some? <==> memory && exists p :: 0 <= p < NPROC && old(proc[..])[p].state.Unused?
      ensures r.Some? ==>
                && old(proc[..])[r.value].state.Unused? &&
                   (forall p :: 0 <= p < r.value ==> !old(proc[..])[p].state.Unused?)
                && proc[..] == old(proc[..])[r.value := NewProc(old(nextPid))] && nextPid == old(nextPid) + 1
                && |old(runs)| == NPROC && runs == old(runs)[r.value := []]
      ensures r.None? ==>
              SameEnergy(old(proc[..]), proc[..]) &&
              forall p :: 0 <= p < NPROC ==>
                if old(proc[..])[p].state.Unused? then proc[p].state.Unused? else proc[p] == old(proc[..])[p]
      ensures |runs| == |old(runs)| == NPROC && forall p :: 0 <= p < NPROC ==> runs[p] == old(runs)[p] || runs[p] == []
    {
      r := FindUnused();
      if r.None? {
        return;
      }
      var p := r.value;
      ghost var t := proc[..];
      proc[p] := proc[p].(pid := nextPid, state := Used, waitingTick := 0,
                          energy := Energy(DEFAULT_ENERGY_BUDGET, 0), lastScheduledTick := 0,
                          waits := proc[p].waits.(waitingForLock := None, deadlockReports := 0, inDeadlock := false,
                                                  holdingRes := NoRes(), waitingRes := -1));
      nextPid := nextPid + 1;
      assert proc[..] == t[p := proc[p]];
      TrackedNew(t, runs, p, proc[p]);
      runs := runs[p := []];
      if !memory {
        Freeproc(p);
        Release(p);
        r := None;
      }
    }

    /** allocproc's search. */
    method FindUnused() returns (r: Option<nat>)
      requires Valid() && HoldsOnly(held[..], None)
      modifies held
      ensures HoldsOnly(held[..], r)
      ensures r.None? ==> forall p :: 0 <= p < NPROC ==> !proc[p].state.Unused?
      ensures r.Some? ==> proc[r.value].state.Unused? && forall p :: 0 <= p < r.value ==> !proc[p].state.Unused?
    {
      for p := 0 to NPROC
        invariant HoldsOnly(held[..], None)
        invariant forall q :: 0 <= q < p ==> !proc[q].state.Unused?
      {
        Acquire(p);
        if proc[p].state.Unused? {
          return Some(p);
        }
        Release(p);
      }
      return None;
    }

    /** freeproc, on a zombie or on a slot that could not be set up. */
    method Freeproc(p: nat)
      requires Valid() && p < NPROC && (proc[p].state.Zombie? || proc[p].state.Used?)
      modifies proc
      ensures Valid() && proc[..] == old(proc[..])[p := Reaped(old(proc[p]))]
    {
      ghost var t := proc[..];
      proc[p] := proc[p].(pid := 0, parent := None, name := "", state := ProcState.Unused, energy := Energy(0, 0),
        lastScheduledTick := 0,
        waits := proc[p].waits.(chan := None, killed := false, xstate := 0, waitingForLock := None,
          deadlockReports := 0, inDeadlock := false, holdingRes := NoRes(), waitingRes := -1));
      TrackedSame(t, proc[..], runs);
    }

    /** Anything else the kernel does to a process: waking it, killing it, renaming it, giving it another parent. */
    method Update(p: nat, state: ProcState, parent: Option<nat>, name: string, waits: Waits)
      requires Valid() && p < NPROC && (parent.Some? ==> parent.value < NPROC)
      requires !proc[p].state.Unused? && !state.Unused? && (current == Some(p) ==> state.Running?)
      modifies proc
      ensures Valid()
      ensures proc[..] == old(proc[..])[p := old(proc[p]).(state := state, parent := parent, name := name,
              waits := waits)]
    {
      ghost var t := proc[..];
      proc[p] := proc[p].(state := state, parent := parent, name := name, waits := waits);
      TrackedSame(t, proc[..], runs);
    }

    /** yield, sleep and kexit up to sched, and the scheduler's release of the lock after the switch. */
    method GiveUpCpu(next: ProcState)
      requires Valid() && HoldsOnly(held[..], None) && current.Some? && !next.Unused?
      modifies this`current, proc, held
      ensures Valid() && HoldsOnly(held[..], None) && current.None?
      ensures proc[..] == old(proc[..])[old(current).value := old(proc[current.value]).(state := next)]
    {
      var p := current.value;
      ghost var t := proc[..];
      Acquire(p);
      proc[p] := proc[p].(state := next);
      current := None;
      Release(p);
      TrackedSame(t, proc[..], runs);
    }

    /** One event, if it can happen now. */
    method Step(op: Op)
      requires Valid() && HoldsOnly(held[..], None)
      modifies this, proc, held
      ensures Valid() && HoldsOnly(held[..], None)
      ensures |runs| == |old(runs)| == NPROC && forall p :: 0 <= p < NPROC ==> |runs[p]| <= |old(runs)[p]| + 1
    {
      match op
      case Allocate(memory) =>
        var r := Allocproc(memory);
        if r.Some? {
          Release(r.value);
        }
      case Reap(p) =>
        if p < NPROC && proc[p].state.Zombie? {
          Freeproc(p);
        }
      case Change(p, state, parent, name, waits) =>
        if p < NPROC && (parent.Some? ==> parent.value < NPROC) && !proc[p].state.Unused? && !state.Unused? &&
           (current == Some(p) ==> state.Running?) {
          Update(p, state, parent, name, waits);
        }
      case Dispatch =>
        if current.None? {
          var chosen := Round();
          if chosen.Some? {
            Release(chosen.value);
          }
        }
      case ClockTick => ClockCharge();
      case UserTick =>
        if current.Some? {
          UserTrapCharge();
        }
      case Leave(next) =>
        if current.Some? && !next.Unused? {
          GiveUpCpu(next);
        }
    }

    /** Any number of events: the counters are what the charges make them, and an event makes at most one charge. */
    method Run(ops: seq<Op>)
      requires Valid() && HoldsOnly(held[..], None)
      modifies this, proc, held
      ensures Valid() && HoldsOnly(held[..], None)
      ensures |runs| == |old(runs)| == NPROC && forall p :: 0 <= p < NPROC ==> |runs[p]| <= |old(runs)[p]| + |ops|
    {
      ghost var before := runs;
      for k := 0 to |ops|
        invariant Valid() && HoldsOnly(held[..], None)
        invariant |runs| == |before| == NPROC && forall p :: 0 <= p < NPROC ==> |runs[p]| <= |before[p]| + k
      {
        Step(ops[k]);
      }
    }
  }

  /** From boot on: after fewer than 2^64 events every allocated process has its counters in balance. */
  method Boot(ops: seq<Op>) returns (cpu: Cpu)
    ensures cpu.Valid() && HoldsOnly(cpu.held[..], None) && fresh(cpu) && fresh(cpu.proc) && fresh(cpu.held)
    ensures |ops| < UINT64 ==> AllBalanced(cpu.proc[..]) && forall p :: 0 <= p < NPROC ==> CounterTells(|cpu.runs[p]|)
  {
    cpu := new Cpu();
    cpu.Run(ops);
    if |ops| < UINT64 {
      RunsKeepBalance(cpu.proc[..], cpu.runs);
    }
  }
}
