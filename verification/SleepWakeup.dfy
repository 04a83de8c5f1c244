/**
 sleep and wakeup at the granularity of single lock operations and field stores, for any number of
 processes. A channel names the condition lock that its sleepers pass to sleep and that its wakers
 hold while they change the condition and call wakeup.
 */
module SleepWakeup {
  import opened Params

  datatype Chan = Chan(lock: int, tag: int) | NoChan

  /** Where a process is. */
  datatype Pc =
    | Elsewhere                    // outside sleep and wakeup
    // sleep(chan, chan.lock)
    | AcquireOwn(c: Chan)          // acquire(&p->lock)
    | ReleaseCond(c: Chan)         // release(lk)
    | StoreChan(c: Chan)           // p->chan = chan
    | StoreState(c: Chan)          // p->state = SLEEPING
    | Switch(c: Chan)              // sched(): the scheduler releases p->lock
    | Off(c: Chan)                 // switched out, waiting to be RUNNABLE
    | ClearChan(c: Chan)           // p->chan = 0, p->lock held again
    | ReleaseOwn(c: Chan)          // release(&p->lock)
    | Reacquire(c: Chan)           // acquire(lk)
    // wakeup(chan), at table slot i
    | Visit(c: Chan, i: int)       // skip itself or acquire(&proc[i].lock)
    | Check(c: Chan, i: int)       // test and set the state of slot i
    | Leave(c: Chan, i: int)       // release(&proc[i].lock)

  const FREE := -1

  datatype State = State(
    pc: seq<Pc>,
    state: seq<ProcState>,
    chan: seq<Chan>,
    own: seq<int>,          // who holds each p->lock
    cond: map<int, int>)    // who holds each condition lock

  predicate Shape(s: State) {
    |s.pc| == |s.state| == |s.chan| == |s.own|
  }

  function CondHolder(s: State, l: int): int {
    if l in s.cond then s.cond[l] else FREE
  }

  datatype Action =
    | Lock(l: int)          // a process elsewhere acquires a condition lock
    | Unlock(l: int)
    | StartSleep(c: Chan)
    | StartWakeup(c: Chan)
    | Continue              // the next step of the sleep or wakeup in progress
    | Kill(victim: int)     // kkill, with the victim's lock held for the whole step

  /** A step of process p; a step that would have to wait for a lock leaves the state as it is. */
  function Next(s: State, p: int, a: Action): State
    requires Shape(s) && 0 <= p < |s.pc|
  {
    match a
    case Lock(l) => if s.pc[p] == Elsewhere && CondHolder(s, l) == FREE then s.(cond := s.cond[l := p]) else s
    case Unlock(l) => if s.pc[p] == Elsewhere && CondHolder(s, l) == p then s.(cond := s.cond[l := FREE]) else s
    case StartSleep(c) =>
      if s.pc[p] == Elsewhere && c.Chan? && CondHolder(s, c.lock) == p then At(s, p, AcquireOwn(c)) else s
    case StartWakeup(c) =>
      if s.pc[p] == Elsewhere && c.Chan? && CondHolder(s, c.lock) == p then At(s, p, Visit(c, 0)) else s
    case Kill(v) =>
      if s.pc[p] == Elsewhere && 0 <= v < |s.pc| && s.own[v] == FREE && s.state[v] == Sleeping
      then s.(state := s.state[v := Runnable]) else s
    case Continue => if s.pc[p].Visit? || s.pc[p].Check? || s.pc[p].Leave? then WakeStep(s, p) else SleepStep(s, p)
  }

  function At(s: State, p: int, pc: Pc): State
    requires 0 <= p < |s.pc|
  {
    s.(pc := s.pc[p := pc])
  }

  function SleepStep(s: State, p: int): State
    requires Shape(s) && 0 <= p < |s.pc|
  {
    match s.pc[p]
    case AcquireOwn(c) => if s.own[p] == FREE then At(s.(own := s.own[p := p]), p, ReleaseCond(c)) else s
    case ReleaseCond(c) => if c.Chan? then At(s.(cond := s.cond[c.lock := FREE]), p, StoreChan(c)) else s
    case StoreChan(c) => At(s.(chan := s.chan[p := c]), p, StoreState(c))
    case StoreState(c) => At(s.(state := s.state[p := Sleeping]), p, Switch(c))
    case Switch(c) => At(s.(own := s.own[p := FREE]), p, Off(c))
    case Off(c) =>
      if s.state[p] == Runnable && s.own[p] == FREE
      then At(s.(own := s.own[p := p], state := s.state[p := Running]), p, ClearChan(c)) else s
    case ClearChan(c) => At(s.(chan := s.chan[p := NoChan]), p, ReleaseOwn(c))
    case ReleaseOwn(c) => At(s.(own := s.own[p := FREE]), p, Reacquire(c))
    case Reacquire(c) =>
      if c.Chan? && CondHolder(s, c.lock) == FREE then At(s.(cond := s.cond[c.lock := p]), p, Elsewhere) else s
    case _ => s
  }

  function WakeStep(s: State, p: int): State
    requires Shape(s) && 0 <= p < |s.pc|
  {
    match s.pc[p]
    case Visit(c, i) =>
      if i >= |s.pc| then At(s, p, Elsewhere)
      else if i == p then At(s, p, Visit(c, i + 1))
      else if 0 <= i && s.own[i] == FREE then At(s.(own := s.own[i := p]), p, Check(c, i))
      else s
    case Check(c, i) =>
      if 0 <= i < |s.pc| && s.state[i] == Sleeping && s.chan[i] == c
      then At(s.(state := s.state[i := Runnable]), p, Leave(c, i)) else At(s, p, Leave(c, i))
    case Leave(c, i) => if 0 <= i < |s.pc| then At(s.(own := s.own[i := FREE]), p, Visit(c, i + 1)) else s
    case _ => s
  }

  predicate Init(s: State) {
    Shape(s) && s.cond == map[] && forall p :: 0 <= p < |s.pc| ==>
      s.pc[p] == Elsewhere && s.state[p] != Sleeping && s.own[p] == FREE
  }

  datatype Event = Event(who: int, action: Action)

  function Run(s: State, run: seq<Event>): (r: State)
    requires Shape(s)
    ensures Shape(r) && |r.pc| == |s.pc|
  {
    if run == [] then s
    else
      var before := Run(s, run[..|run| - 1]);
      var e := run[|run| - 1];
      if 0 <= e.who < |s.pc| then Next(before, e.who, e.action) else before
  }

  // ---- invariant ----

  predicate HoldsOwn(pc: Pc) {
    pc.ReleaseCond? || pc.StoreChan? || pc.StoreState? || pc.Switch? || pc.ClearChan? || pc.ReleaseOwn?
  }

  predicate Waking(pc: Pc) {
    pc.Visit? || pc.Check? || pc.Leave?
  }

  /** The locks that a process holds because of where it is. */
  predicate LocksOk(s: State, p: int)
    requires Shape(s) && 0 <= p < |s.pc|
  {
    && (HoldsOwn(s.pc[p]) ==> s.own[p] == p)
    && ((s.pc[p].Check? || s.pc[p].Leave?) ==> 0 <= s.pc[p].i < |s.pc| && s.pc[p].i != p && s.own[s.pc[p].i] == p)
    && ((s.pc[p].AcquireOwn? || s.pc[p].ReleaseCond? || Waking(s.pc[p])) ==>
       s.pc[p].c.Chan? && CondHolder(s, s.pc[p].c.lock) == p)
    && (s.pc[p] != Elsewhere ==> s.pc[p].c.Chan?)
    && (s.pc[p].Visit? ==> 0 <= s.pc[p].i)
  }

  /** A process is SLEEPING only while switched out or about to be, and then on its own channel. */
  predicate SleepOk(s: State, p: int)
    requires Shape(s) && 0 <= p < |s.pc|
  {
    && (s.state[p] == Sleeping ==> s.pc[p].Switch? || s.pc[p].Off?)
    && (s.pc[p].Switch? ==> s.state[p] == Sleeping)
    && (s.pc[p].StoreState? || s.pc[p].Switch? || s.pc[p].Off? ==> s.chan[p] == s.pc[p].c)
  }

  /** q is inside sleep on c and nobody has woken it yet. */
  predicate Bound(s: State, q: int, c: Chan)
    requires Shape(s) && 0 <= q < |s.pc|
  {
    || s.pc[q] == AcquireOwn(c) || s.pc[q] == ReleaseCond(c) || s.pc[q] == StoreChan(c) || s.pc[q] == StoreState(c)
    || s.pc[q] == Switch(c) || (s.pc[q] == Off(c) && s.state[q] == Sleeping)
  }

  /** Slots that the wakeup of process w has finished with. */
  predicate Finished(pc: Pc, q: int) {
    (pc.Visit? && q < pc.i) || (pc.Check? && q < pc.i) || (pc.Leave? && q <= pc.i)
  }

  predicate Swept(s: State, w: int, q: int)
    requires Shape(s) && 0 <= w < |s.pc| && 0 <= q < |s.pc|
  {
    q != w && Finished(s.pc[w], q) ==> !Bound(s, q, s.pc[w].c)
  }

  ghost predicate Inv(s: State) {
    && Shape(s)
    && (forall p {:trigger LocksOk(s, p)} :: 0 <= p < |s.pc| ==> LocksOk(s, p))
    && (forall p {:trigger SleepOk(s, p)} :: 0 <= p < |s.pc| ==> SleepOk(s, p))
    && (forall w, q {:trigger Swept(s, w, q)} :: 0 <= w < |s.pc| && 0 <= q < |s.pc| ==> Swept(s, w, q))
  }

  lemma WakeKeepsLocks(s: State, p: int, q: int)
    requires Shape(s) && 0 <= p < |s.pc| && 0 <= q < |s.pc| && Waking(s.pc[p])
    requires LocksOk(s, p) && LocksOk(s, q)
    ensures LocksOk(WakeStep(s, p), q)
  {
  }

  lemma WakeKeepsSleep(s: State, p: int, q: int)
    requires Shape(s) && 0 <= p < |s.pc| && 0 <= q < |s.pc| && Waking(s.pc[p])
    requires LocksOk(s, p) && LocksOk(s, q) && SleepOk(s, q)
    ensures SleepOk(WakeStep(s, p), q)
  {
  }

  lemma WakeKeepsSwept(s: State, p: int, w: int, q: int)
    requires Shape(s) && 0 <= p < |s.pc| && 0 <= w < |s.pc| && 0 <= q < |s.pc| && Waking(s.pc[p])
    requires LocksOk(s, p) && LocksOk(s, w) && LocksOk(s, q) && SleepOk(s, q) && Swept(s, w, q)
    ensures Swept(WakeStep(s, p), w, q)
  {
  }

  lemma SleepKeepsLocks(s: State, p: int, q: int)
    requires Shape(s) && 0 <= p < |s.pc| && 0 <= q < |s.pc| && !Waking(s.pc[p])
    requires LocksOk(s, p) && LocksOk(s, q)
    ensures LocksOk(SleepStep(s, p), q)
  {
  }

  lemma SleepKeepsSleep(s: State, p: int, q: int)
    requires Shape(s) && 0 <= p < |s.pc| && 0 <= q < |s.pc| && !Waking(s.pc[p])
    requires SleepOk(s, p) && SleepOk(s, q)
    ensures SleepOk(SleepStep(s, p), q)
  {
  }

  lemma SleepKeepsSwept(s: State, p: int, w: int, q: int)
    requires Shape(s) && 0 <= p < |s.pc| && 0 <= w < |s.pc| && 0 <= q < |s.pc| && !Waking(s.pc[p])
    requires LocksOk(s, p) && LocksOk(s, w) && LocksOk(s, q) && Swept(s, w, q)
    ensures Swept(SleepStep(s, p), w, q)
  {
  }

  /** Starting sleep or wakeup, taking or giving back a condition lock, and kill. */
  lemma OtherKeepsLocks(s: State, p: int, a: Action, q: int)
    requires Shape(s) && 0 <= p < |s.pc| && 0 <= q < |s.pc| && a != Continue && LocksOk(s, q)
    ensures LocksOk(Next(s, p, a), q)
  {
  }

  lemma OtherKeepsSleep(s: State, p: int, a: Action, q: int)
    requires Shape(s) && 0 <= p < |s.pc| && 0 <= q < |s.pc| && a != Continue && LocksOk(s, q) && SleepOk(s, q)
    ensures SleepOk(Next(s, p, a), q)
  {
  }

  lemma OtherKeepsSwept(s: State, p: int, a: Action, w: int, q: int)
    requires Shape(s) && 0 <= p < |s.pc| && 0 <= w < |s.pc| && 0 <= q < |s.pc| && a != Continue
    requires LocksOk(s, w) && LocksOk(s, q) && SleepOk(s, q) && Swept(s, w, q)
    ensures Swept(Next(s, p, a), w, q)
  {
  }

  lemma StepKeeps(s: State, p: int, a: Action, w: int, q: int)
    requires Inv(s) && 0 <= p < |s.pc| && 0 <= w < |s.pc| && 0 <= q < |s.pc|
    ensures LocksOk(Next(s, p, a), q) && SleepOk(Next(s, p, a), q) && Swept(Next(s, p, a), w, q)
  {
    assert LocksOk(s, p) && LocksOk(s, w) && LocksOk(s, q) && SleepOk(s, p) && SleepOk(s, q) && Swept(s, w, q);
    if a != Continue {
      OtherKeepsLocks(s, p, a, q);
      OtherKeepsSleep(s, p, a, q);
      OtherKeepsSwept(s, p, a, w, q);
    } else if Waking(s.pc[p]) {
      WakeKeepsLocks(s, p, q);
      WakeKeepsSleep(s, p, q);
      WakeKeepsSwept(s, p, w, q);
    } else {
      SleepKeepsLocks(s, p, q);
      SleepKeepsSleep(s, p, q);
      SleepKeepsSwept(s, p, w, q);
    }
  }

  lemma StepKeepsInv(s: State, p: int, a: Action)
    requires Inv(s) && 0 <= p < |s.pc|
    ensures Inv(Next(s, p, a))
  {
    var t := Next(s, p, a);
    forall q | 0 <= q < |t.pc|
      ensures LocksOk(t, q) && SleepOk(t, q)
    {
      StepKeeps(s, p, a, p, q);
    }
    forall w, q | 0 <= w < |t.pc| && 0 <= q < |t.pc|
      ensures Swept(t, w, q)
    {
      StepKeeps(s, p, a, w, q);
    }
  }

  lemma {:induction false} RunKeepsInv(s: State, run: seq<Event>)
    requires Init(s)
    ensures Inv(Run(s, run))
  {
    if run != [] {
      RunKeepsInv(s, run[..|run| - 1]);
      var e := run[|run| - 1];
      if 0 <= e.who < |s.pc| {
        StepKeepsInv(Run(s, run[..|run| - 1]), e.who, e.action);
      }
    }
  }

  /**
   No lost wakeup. Whatever the interleaving, when process w has gone through the whole table for
   channel c and is about to return from wakeup, nobody is SLEEPING on c, nobody is on the way there,
   and so everybody who had called sleep on c has been made RUNNABLE.
   */
  lemma NoLostWakeup(s: State, run: seq<Event>, w: int, q: int)
    requires Init(s) && 0 <= w < |s.pc| && 0 <= q < |s.pc|
    requires var t := Run(s, run); t.pc[w].Visit? && t.pc[w].i >= |t.pc|
    ensures var t := Run(s, run); var c := t.pc[w].c;
            !Bound(t, q, c) && !(t.state[q] == Sleeping && t.chan[q] == c)
  {
    RunKeepsInv(s, run);
    var t := Run(s, run);
    assert LocksOk(t, w) && SleepOk(t, q) && Swept(t, w, q);
  }

  /** A process stops sleeping only because of kill, or because a wakeup on its own channel comes to it. */
  lemma WokenByItsChannel(s: State, p: int, a: Action, q: int)
    requires Inv(s) && 0 <= p < |s.pc| && 0 <= q < |s.pc| && s.state[q] == Sleeping &&
             Next(s, p, a).state[q] != Sleeping
    ensures Next(s, p, a).state[q] == Runnable && (a == Kill(q) || (a == Continue && s.pc[p] == Check(s.chan[q], q)))
  {
    assert SleepOk(s, q) && LocksOk(s, p);
  }
}
