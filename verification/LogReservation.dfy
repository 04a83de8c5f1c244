/**
 The admission control of the log: begin_op, log_write, end_op and the end of commit as atomic steps
 under log.lock, in any interleaving of any number of processes.
 */
module LogReservation {
  import opened Collections
  import opened Params

  /** The in-memory log. ops[p] is the set of blocks that the file-system call of process p has logged so far. */
  datatype Log = Log(
    outstanding: int,
    committing: bool,
    lh: seq<int>,
    ops: seq<Option<set<int>>>)

  datatype Outcome = Ok(log: Log) | Panic

  datatype Step =
    | BeginOp               // no effect while the call has to sleep
    | LogWrite(b: int)
    | EndOp
    | CommitClear           // commit sets log.lh.n = 0
    | CommitEnd             // end_op sets log.committing = 0

  /** Log absorption: a block that is already in the log keeps its slot. */
  function Absorb(lh: seq<int>, b: int): (r: seq<int>)
    ensures r == if b in lh then lh else lh + [b]
  {
    var i := IndexOf(lh, b);
    if i == |lh| then lh + [b] else lh[i := b]
  }

  /** The effect of one step of process p. */
  function Next(l: Log, p: int, step: Step): Outcome
    requires 0 <= p < |l.ops|
  {
    match step
    case BeginOp =>
      if l.ops[p].Some? || l.committing || |l.lh| + (l.outstanding + 1) * MAXOPBLOCKS > LOGBLOCKS then Ok(l)
      else Ok(l.(outstanding := l.outstanding + 1, ops := l.ops[p := Some({})]))
    case LogWrite(b) =>
      if l.ops[p].None? then Ok(l)
      else if |l.lh| >= LOGBLOCKS || l.outstanding < 1 then Panic
      else
        Ok(l.(lh := Absorb(l.lh, b), ops := l.ops[p := Some(l.ops[p].value + {b})]))
    case EndOp =>
      if l.ops[p].None? then Ok(l)
      else if l.committing then Panic
      else Ok(l.(outstanding := l.outstanding - 1, committing := l.outstanding - 1 == 0, ops := l.ops[p := None]))
    case CommitClear => if l.committing then Ok(l.(lh := [])) else Ok(l)
    case CommitEnd => if l.committing && l.lh == [] then Ok(l.(committing := false)) else Ok(l)
  }

  /** The promise that every call logs fewer than `bound` distinct blocks. */
  predicate Within(l: Log, p: int, step: Step, bound: int)
    requires 0 <= p < |l.ops|
  {
    step.LogWrite? && l.ops[p].Some? ==> |l.ops[p].value + {step.b}| < bound
  }

  // ---- reservations ----

  /** The log slots still promised to the calls in the given process slots. */
  function Reserved(ops: seq<Option<set<int>>>): int {
    if ops == [] then 0
    else Reserved(ops[..|ops| - 1]) + (if ops[|ops| - 1].Some? then MAXOPBLOCKS - |ops[|ops| - 1].value| else 0)
  }

  function Active(ops: seq<Option<set<int>>>): int {
    if ops == [] then 0 else Active(ops[..|ops| - 1]) + (if ops[|ops| - 1].Some? then 1 else 0)
  }

  function Share(op: Option<set<int>>): int {
    if op.Some? then MAXOPBLOCKS - |op.value| else 0
  }

  lemma {:induction false} ReservedUpdate(ops: seq<Option<set<int>>>, p: int, op: Option<set<int>>)
    requires 0 <= p < |ops|
    ensures Reserved(ops[p := op]) == Reserved(ops) - Share(ops[p]) + Share(op)
    ensures Active(ops[p := op]) == Active(ops) - (if ops[p].Some? then 1 else 0) + (if op.Some? then 1 else 0)
  {
    var last := |ops| - 1;
    if p == last {
      assert ops[p := op][..last] == ops[..last];
    } else {
      ReservedUpdate(ops[..last], p, op);
      assert ops[p := op][..last] == ops[..last][p := op];
    }
  }

  predicate SmallOps(ops: seq<Option<set<int>>>) {
    forall p :: 0 <= p < |ops| && ops[p].Some? ==> |ops[p].value| < MAXOPBLOCKS
  }

  lemma {:induction false} ReservedBounds(ops: seq<Option<set<int>>>)
    requires SmallOps(ops)
    ensures Active(ops) <= Reserved(ops) <= Active(ops) * MAXOPBLOCKS && 0 <= Active(ops)
    ensures Active(ops) == 0 <==> forall p :: 0 <= p < |ops| ==> ops[p].None?
  {
    if ops != [] {
      ReservedBounds(ops[..|ops| - 1]);
      assert forall p :: 0 <= p < |ops| - 1 ==> ops[..|ops| - 1][p] == ops[p];
    }
  }

  // ---- invariant ----

  predicate Logged(l: Log) {
    forall p, b :: 0 <= p < |l.ops| && l.ops[p].Some? && b in l.ops[p].value ==> b in l.lh
  }

  predicate Inv(l: Log) {
    && SmallOps(l.ops) && Logged(l) && Distinct(l.lh)
    && l.outstanding == Active(l.ops)
    && |l.lh| + Reserved(l.ops) <= LOGBLOCKS
    && (l.committing ==> l.outstanding == 0)
  }

  /** Logging a block that is new to the call uses up one reserved slot, unless the block is absorbed. */
  lemma LogWriteKeepsInv(l: Log, p: int, b: int)
    requires Inv(l) && 0 <= p < |l.ops| && l.ops[p].Some? && |l.ops[p].value + {b}| < MAXOPBLOCKS
    ensures |l.lh| < LOGBLOCKS && l.outstanding >= 1
    ensures Inv(l.(lh := Absorb(l.lh, b), ops := l.ops[p := Some(l.ops[p].value + {b})]))
  {
    var op := l.ops[p].value;
    ReservedBounds(l.ops);
    ReservedUpdate(l.ops, p, None);
    ReservedUpdate(l.ops, p, Some(op + {b}));
    assert b in op ==> op + {b} == op;
    var ops := l.ops[p := Some(op + {b})];
    assert SmallOps(l.ops[p := None]);
    ReservedBounds(l.ops[p := None]);
    forall q, c | 0 <= q < |ops| && ops[q].Some? && c in ops[q].value
      ensures c in Absorb(l.lh, b)
    {
      assert q != p || c != b ==> c in l.ops[q].value;
    }
  }

  lemma StepKeepsInv(l: Log, p: int, step: Step)
    requires Inv(l) && 0 <= p < |l.ops| && Within(l, p, step, MAXOPBLOCKS)
    ensures Next(l, p, step).Ok? && Inv(Next(l, p, step).log) && |Next(l, p, step).log.ops| == |l.ops|
  {
    ReservedBounds(l.ops);
    match step
    case BeginOp =>
      ReservedUpdate(l.ops, p, Some({}));
    case LogWrite(b) =>
      if l.ops[p].Some? {
        LogWriteKeepsInv(l, p, b);
      }
    case EndOp =>
      ReservedUpdate(l.ops, p, None);
    case CommitClear =>
    case CommitEnd =>
  }

  /** A run of steps by processes. */
  datatype Event = Event(who: int, step: Step)

  function Run(l: Log, run: seq<Event>): (r: Outcome)
    ensures r.Ok? ==> |r.log.ops| == |l.ops|
  {
    if run == [] then Ok(l)
    else
      match Run(l, run[..|run| - 1])
      case Panic => Panic
      case Ok(m) =>
        var e := run[|run| - 1];
        if 0 <= e.who < |l.ops| then Next(m, e.who, e.step) else Ok(m)
  }

  /** Every call of the run keeps its promise. */
  predicate RunWithin(l: Log, run: seq<Event>, bound: int) {
    forall k :: 0 <= k < |run| && 0 <= run[k].who < |l.ops| && Run(l, run[..k]).Ok? ==>
      Within(Run(l, run[..k]).log, run[k].who, run[k].step, bound)
  }

  predicate Init(l: Log) {
    l.outstanding == 0 && !l.committing && l.lh == [] && forall p :: 0 <= p < |l.ops| ==> l.ops[p].None?
  }

  /**
   If every call logs fewer than MAXOPBLOCKS distinct blocks, then in every interleaving the log never
   overflows, holds each block once, commits only between calls, and no panic is reached.
   */
  lemma {:induction false} NoOverflow(l: Log, run: seq<Event>)
    requires Init(l) && RunWithin(l, run, MAXOPBLOCKS)
    ensures Run(l, run).Ok?
    ensures var m := Run(l, run).log;
            Inv(m) && |m.lh| <= LOGBLOCKS && Distinct(m.lh) && (m.committing ==> m.outstanding == 0)
  {
    if run == [] {
      ReservedBounds(l.ops);
      assert Reserved(l.ops) == 0;
    } else {
      var front := run[..|run| - 1];
      assert forall k :: 0 <= k < |front| ==> run[k] == front[k] && run[..k] == front[..k];
      NoOverflow(l, front);
      var e := run[|run| - 1];
      if 0 <= e.who < |l.ops| {
        StepKeepsInv(Run(l, front).log, e.who, e.step);
      }
      ReservedBounds(Run(l, run).log.ops);
    }
  }

  lemma Extend(l: Log, run: seq<Event>, e: Event, bound: int)
    requires RunWithin(l, run, bound) && Run(l, run).Ok? && 0 <= e.who < |l.ops|
    requires Within(Run(l, run).log, e.who, e.step, bound)
    ensures RunWithin(l, run + [e], bound) && Run(l, run + [e]) == Next(Run(l, run).log, e.who, e.step)
  {
    var full := run + [e];
    assert full[..|run|] == run;
    forall k | 0 <= k < |full| && 0 <= full[k].who < |l.ops| && Run(l, full[..k]).Ok?
      ensures Within(Run(l, full[..k]).log, full[k].who, full[k].step, bound)
    {
      if k < |run| {
        assert full[..k] == run[..k] && full[k] == run[k];
      }
    }
  }

  // ---- which promise is enough ----

  lemma WithinMore(l: Log, run: seq<Event>, bound: int, more: int)
    requires RunWithin(l, run, bound) && bound <= more
    ensures RunWithin(l, run, more)
  {
  }

  /** The numbers from lo up to hi. */
  function Ascending(n: int): (r: seq<int>)
    requires 0 <= n
    ensures |r| == n && forall x :: x in r <==> 0 <= x < n
  {
    if n == 0 then [] else Ascending(n - 1) + [n - 1]
  }

  /** The log with blocks 0 up to n logged, while out calls are under way. */
  function Holding(out: int, n: int, ops: seq<Option<set<int>>>): Log
    requires 0 <= n
  {
    Log(out, false, Ascending(n), ops)
  }

  ghost predicate Reached(l: Log, run: seq<Event>, bound: int, m: Log) {
    RunWithin(l, run, bound) && Run(l, run) == Ok(m)
  }

  lemma BeginAnother(l: Log, run: seq<Event>, bound: int, p: int, out: int, n: int, ops: seq<Option<set<int>>>)
    returns (run': seq<Event>)
    requires 0 <= n && 0 <= out && Reached(l, run, bound, Holding(out, n, ops)) && |ops| == |l.ops|
    requires 0 <= p < |ops| && ops[p].None? && n + (out + 1) * MAXOPBLOCKS <= LOGBLOCKS
    ensures Reached(l, run', bound, Holding(out + 1, n, ops[p := Some({})]))
  {
    Extend(l, run, Event(p, BeginOp), bound);
    run' := run + [Event(p, BeginOp)];
  }

  lemma EndOne(l: Log, run: seq<Event>, bound: int, p: int, out: int, n: int, ops: seq<Option<set<int>>>)
    returns (run': seq<Event>)
    requires 0 <= n && 1 < out && Reached(l, run, bound, Holding(out, n, ops)) && |ops| == |l.ops|
    requires 0 <= p < |ops| && ops[p].Some?
    ensures Reached(l, run', bound, Holding(out - 1, n, ops[p := None]))
  {
    Extend(l, run, Event(p, EndOp), bound);
    run' := run + [Event(p, EndOp)];
  }

  lemma {:induction false} LogOne(m: Log, p: int, out: int, lo: int, n: int, ops: seq<Option<set<int>>>, bound: int)
    requires 0 <= lo <= n < LOGBLOCKS && 1 <= out && 0 <= p < |ops| && ops[p] == Some(Range(lo, n)) &&
             n + 1 - lo < bound
    requires m == Holding(out, n, ops)
    ensures Within(m, p, LogWrite(n), bound)
    ensures Next(m, p, LogWrite(n)) == Ok(Holding(out, n + 1, ops[p := Some(Range(lo, n + 1))]))
  {
    RangeMore(lo, n);
    assert n !in Ascending(n);
  }

  lemma {:induction false} LogNext(l: Log, run: seq<Event>, bound: int, p: int, out: int, lo: int, n: int,
                                   ops: seq<Option<set<int>>>)
    returns (run': seq<Event>)
    requires 0 <= lo <= n < LOGBLOCKS && 1 <= out && Reached(l, run, bound, Holding(out, n, ops)) && |ops| == |l.ops|
    requires 0 <= p < |ops| && ops[p] == Some(Range(lo, n)) && n + 1 - lo < bound
    ensures Reached(l, run', bound, Holding(out, n + 1, ops[p := Some(Range(lo, n + 1))]))
  {
    LogOne(Holding(out, n, ops), p, out, lo, n, ops, bound);
    Extend(l, run, Event(p, LogWrite(n)), bound);
    run' := run + [Event(p, LogWrite(n))];
  }

  lemma UpdateAgain<T>(s: seq<T>, p: int, x: T, y: T)
    requires 0 <= p < |s|
    ensures s[p := x][p := y] == s[p := y] && s[p := s[p]] == s
  {
  }

  /** The call of process p logs the blocks up to hi. */
  lemma {:induction false} LogMany(l: Log, run: seq<Event>, bound: int, p: int, out: int, lo: int, n: int, hi: int,
                                   ops: seq<Option<set<int>>>)
    returns (run': seq<Event>)
    requires 0 <= lo <= n <= hi <= LOGBLOCKS && 1 <= out && Reached(l, run, bound, Holding(out, n, ops)) &&
             |ops| == |l.ops|
    requires 0 <= p < |ops| && ops[p] == Some(Range(lo, n)) && hi - lo < bound
    ensures Reached(l, run', bound, Holding(out, hi, ops[p := Some(Range(lo, hi))]))
    decreases hi - n
  {
    if n == hi {
      UpdateAgain(ops, p, ops[p], ops[p]);
      run' := run;
    } else {
      run' := LogNext(l, run, bound, p, out, lo, n, ops);
      var ops' := ops[p := Some(Range(lo, n + 1))];
      run' := LogMany(l, run', bound, p, out, lo, n + 1, hi, ops');
      UpdateAgain(ops, p, Some(Range(lo, n + 1)), Some(Range(lo, hi)));
    }
  }

  /** With the log full, logging one's own block again panics, though it adds nothing to the promise used up. */
  lemma {:induction false} AgainPanics(l: Log, run: seq<Event>, bound: int, p: int, out: int, lo: int, n: int,
                                       ops: seq<Option<set<int>>>)
    returns (run': seq<Event>)
    requires 0 <= lo < n == LOGBLOCKS && Reached(l, run, bound, Holding(out, n, ops)) && |ops| == |l.ops|
    requires 0 <= p < |ops| && ops[p] == Some(Range(lo, n)) && n - lo < bound
    ensures RunWithin(l, run', bound) && Run(l, run') == Panic
  {
    assert Range(lo, n) + {lo} == Range(lo, n);
    RangeSize(lo, n);
    Extend(l, run, Event(p, LogWrite(lo)), bound);
    run' := run + [Event(p, LogWrite(lo))];
  }

  lemma InitHolding(l: Log, bound: int)
    requires Init(l)
    ensures Reached(l, [], bound, Holding(0, 0, l.ops))
  {
  }

  /** Two processes and MAXOPBLOCKS blocks each: the first makes two calls while one call of the second goes on. */
  lemma TwoSlotsPanic(l: Log, c: int) returns (run: seq<Event>)
    requires Init(l) && |l.ops| >= 2 && c == MAXOPBLOCKS
    ensures RunWithin(l, run, c + 1) && Run(l, run) == Panic
  {
    InitHolding(l, c + 1);
    run := BeginAnother(l, [], c + 1, 1, 0, 0, l.ops);
    var ops := l.ops[1 := Some({})];
    run := FirstCall(l, run, c, ops);
    run := SecondCall(l, run, c, ops);
  }

  lemma FirstCall(l: Log, run: seq<Event>, c: int, ops: seq<Option<set<int>>>) returns (run': seq<Event>)
    requires c == MAXOPBLOCKS && |ops| == |l.ops| >= 2 && ops[0].None? && Reached(l, run, c + 1, Holding(1, 0, ops))
    ensures Reached(l, run', c + 1, Holding(1, c, ops))
  {
    run' := BeginAnother(l, run, c + 1, 0, 1, 0, ops);
    var ops1 := ops[0 := Some({})];
    run' := LogMany(l, run', c + 1, 0, 2, 0, 0, c, ops1);
    var ops2 := ops1[0 := Some(Range(0, c))];
    run' := EndOne(l, run', c + 1, 0, 2, c, ops2);
    UpdateAgain(ops, 0, Some({}), Some(Range(0, c)));
    UpdateAgain(ops, 0, Some(Range(0, c)), None);
  }

  lemma SecondCall(l: Log, run: seq<Event>, c: int, ops: seq<Option<set<int>>>) returns (run': seq<Event>)
    requires c == MAXOPBLOCKS && |ops| == |l.ops| >= 2 && ops[0].None? && ops[1] == Some({}) &&
             Reached(l, run, c + 1, Holding(1, c, ops))
    ensures RunWithin(l, run', c + 1) && Run(l, run') == Panic
  {
    run' := BeginAnother(l, run, c + 1, 0, 1, c, ops);
    assert Range(c, c) == {} == Range(2 * c, 2 * c);
    var ops1 := ops[0 := Some({})];
    run' := LogMany(l, run', c + 1, 0, 2, c, c, 2 * c, ops1);
    var ops2 := ops1[0 := Some(Range(c, 2 * c))];
    run' := LogMany(l, run', c + 1, 1, 2, 2 * c, 2 * c, 3 * c, ops2);
    run' := AgainPanics(l, run', c + 1, 1, 2, 2 * c, 3 * c, ops2[1 := Some(Range(2 * c, 3 * c))]);
  }

  /** One process alone runs into the same panic only with LOGBLOCKS blocks. */
  lemma OneSlotPanics(l: Log, c: int) returns (run: seq<Event>)
    requires Init(l) && |l.ops| == 1 && c == LOGBLOCKS
    ensures RunWithin(l, run, c + 1) && Run(l, run) == Panic
  {
    InitHolding(l, c + 1);
    run := BeginAnother(l, [], c + 1, 0, 0, 0, l.ops);
    var ops := l.ops[0 := Some({})];
    run := LogMany(l, run, c + 1, 0, 1, 0, 0, c, ops);
    run := AgainPanics(l, run, c + 1, 0, 1, 0, c, ops[0 := Some(Range(0, c))]);
  }

  /** With one process the log holds exactly what its call has logged. */
  ghost predicate Alone(l: Log) {
    && |l.ops| == 1 && |l.lh| <= LOGBLOCKS
    && match l.ops[0]
       case Some(op) => l.outstanding == 1 && !l.committing && |op| < LOGBLOCKS && |l.lh| == |op| &&
         forall b :: b in op <==> b in l.lh
       case None => l.outstanding == 0 && (l.committing || l.lh == [])
  }

  lemma AloneStep(l: Log, step: Step)
    requires Alone(l) && Within(l, 0, step, LOGBLOCKS)
    ensures Next(l, 0, step).Ok? && Alone(Next(l, 0, step).log)
  {
    if step.LogWrite? && l.ops[0].Some? {
      var op := l.ops[0].value;
      assert step.b in op ==> op + {step.b} == op;
    }
  }

  lemma {:induction false} AloneRun(l: Log, run: seq<Event>)
    requires Init(l) && |l.ops| == 1 && RunWithin(l, run, LOGBLOCKS)
    ensures Run(l, run).Ok? && Alone(Run(l, run).log)
  {
    if run != [] {
      var front, e := run[..|run| - 1], run[|run| - 1];
      assert forall k :: 0 <= k < |front| ==> run[k] == front[k] && run[..k] == front[..k];
      AloneRun(l, front);
      if e.who == 0 {
        AloneStep(Run(l, front).log, e.step);
      }
    }
  }

  lemma {:induction false} NobodyRuns(l: Log, run: seq<Event>)
    requires |l.ops| == 0
    ensures Run(l, run) == Ok(l)
  {
    if run != [] {
      NobodyRuns(l, run[..|run| - 1]);
    }
  }

  /** How many blocks a call may promise to stay below. */
  predicate Safe(nproc: int, bound: int) {
    nproc == 0 || (nproc == 1 && bound <= LOGBLOCKS) || bound <= MAXOPBLOCKS
  }

  lemma SafeRuns(l: Log, run: seq<Event>, bound: int)
    requires Init(l) && Safe(|l.ops|, bound) && RunWithin(l, run, bound)
    ensures Run(l, run).Ok?
  {
    if |l.ops| == 0 {
      NobodyRuns(l, run);
    } else if bound <= MAXOPBLOCKS {
      WithinMore(l, run, bound, MAXOPBLOCKS);
      NoOverflow(l, run);
    } else {
      WithinMore(l, run, bound, LOGBLOCKS);
      AloneRun(l, run);
    }
  }

  lemma UnsafeRun(l: Log, bound: int) returns (run: seq<Event>)
    requires Init(l) && !Safe(|l.ops|, bound)
    ensures RunWithin(l, run, bound) && Run(l, run) == Panic
  {
    if |l.ops| == 1 {
      run := OneSlotPanics(l, LOGBLOCKS);
      WithinMore(l, run, LOGBLOCKS + 1, bound);
    } else {
      run := TwoSlotsPanic(l, MAXOPBLOCKS);
      WithinMore(l, run, MAXOPBLOCKS + 1, bound);
    }
  }

  /**
   Exactly which promise is enough: no run of calls that each log fewer than bound distinct blocks panics if
   and only if bound is at most MAXOPBLOCKS, or LOGBLOCKS when there is only one process.
   */
  lemma NoPanicIff(l: Log, bound: int)
    requires Init(l)
    ensures (forall run :: RunWithin(l, run, bound) ==> Run(l, run).Ok?) <==> Safe(|l.ops|, bound)
  {
    if Safe(|l.ops|, bound) {
      forall run | RunWithin(l, run, bound)
        ensures Run(l, run).Ok?
      {
        SafeRuns(l, run, bound);
      }
    } else {
      var run := UnsafeRun(l, bound);
      assert RunWithin(l, run, bound) && !Run(l, run).Ok?;
    }
  }
}
