/**
 The buffer cache shared by any number of threads, and the commit that one of them runs: bget, bread, brelse,
 log_write, begin_op and end_op, and the rounds of write_log, write_head and install_trans, as atomic steps.
 The committing thread goes through the code of commit in program order; the others read meanwhile.
 */
module BufferCache {
  import opened Params

  type Block = seq<int>

  const NOBODY := -1

  /** The n-th log block, when the header is in block head. */
  function LogKey(head: Key, n: int): Key {
    Key(head.dev, head.bn + 1 + n)
  }

  predicate InLog(head: Key, k: Key) {
    k.dev == head.dev && head.bn <= k.bn <= head.bn + LOGBLOCKS
  }

  /** A buffer; users are the threads between bget and brelse on it. Buffers never used have device number 0. */
  datatype Buf = Buf(
    key: Key,
    valid: bool,
    refcnt: int,
    data: Block,
    lockedBy: int,
    dirty: bool,           // changed since the last log_write or bwrite
    users: multiset<int>)

  /** A block that log_write has recorded and install_trans has not yet unpinned: its buffer, contents and log slot. */
  datatype Pin = Pin(slot: int, data: Block, at: int)

  /** Where a round of write_log or install_trans is. */
  datatype Stage =
    | GetFirst       // bread of the log block, or of the header
    | GetSecond      // bread of the home block
    | Copy           // memmove
    | Store          // bwrite of the target
    | Unpin          // bunpin, install_trans only
    | ReleaseSource
    | ReleaseTarget

  /** What the committing thread is doing. Round n copies between log buffer l and home buffer d. */
  datatype Pc =
    | Quiet
    | Round(install: bool, n: int, stage: Stage, l: int, d: int)
    | Head(last: bool, part: Stage, h: int)

  datatype State = State(
    bufs: seq<Buf>,
    disk: map<Key, Block>,
    lh: seq<Key>,            // the in-memory log header
    logged: map<Key, Pin>,
    active: set<int>,        // threads between begin_op and end_op
    head: Key,               // the header block of the log
    me: int,                 // the thread that commits
    pc: Pc)

  function OnDisk(s: State, k: Key): Block {
    if k in s.disk then s.disk[k] else []
  }

  /** The disk contents overlaid by the logged but uninstalled writes. */
  function View(s: State, k: Key): Block {
    if k in s.logged then s.logged[k].data else OnDisk(s, k)
  }

  function Target(pc: Pc): int {
    if pc.Round? then (if pc.install then pc.d else pc.l) else if pc.Head? then pc.h else 0
  }

  function Source(pc: Pc): int
    requires pc.Round?
  {
    if pc.install then pc.l else pc.d
  }

  datatype Action =
    | Hit(k: Key)          // bget finds the block in buffer i
    | Recycle(k: Key)      // bget gives buffer i, which nobody uses, to a block that is not cached
    | Acquire              // acquiresleep on the buffer
    | Fill                 // bread reads an invalid buffer from disk
    | Modify(data: Block)  // the caller changes the data, within a transaction
    | LogWrite             // log_write, pinning the buffer unless the block is in the log already
    | Brelse
    | BeginOp
    | EndOp                // the last call to end starts the commit
    | Commit               // the next step of the commit

  ghost predicate NotCached(s: State, k: Key) {
    forall j :: 0 <= j < |s.bufs| ==> s.bufs[j].key != k
  }

  ghost predicate UsesNone(s: State, t: int) {
    forall j :: 0 <= j < |s.bufs| ==> t !in s.bufs[j].users
  }

  function With(s: State, i: int, b: Buf): State
    requires 0 <= i < |s.bufs|
  {
    s.(bufs := s.bufs[i := b])
  }

  function Released(b: Buf, t: int): Buf {
    b.(lockedBy := NOBODY, refcnt := b.refcnt - 1, users := b.users - multiset{t})
  }

  /** log_write on buffer i. */
  function LogWritten(s: State, i: int): State
    requires 0 <= i < |s.bufs|
  {
    var b := s.bufs[i];
    var old_ := b.key in s.logged;
    var pin := Pin(i, b.data, if old_ then s.logged[b.key].at else |s.lh|);
    With(s, i, b.(dirty := false, refcnt := if old_ then b.refcnt else b.refcnt + 1))
      .(logged := s.logged[b.key := pin], lh := if old_ then s.lh else s.lh + [b.key])
  }

  /** bread by the committing thread has returned buffer i. */
  predicate Got(s: State, i: int, k: Key) {
    0 <= i < |s.bufs| && s.bufs[i].key == k && s.bufs[i].lockedBy == s.me && s.bufs[i].valid
  }

  function Copied(s: State, i: int, data: Block): State
    requires 0 <= i < |s.bufs|
  {
    With(s, i, s.bufs[i].(data := data, dirty := true))
  }

  /** bwrite of buffer i. */
  function Stored(s: State, i: int): State
    requires 0 <= i < |s.bufs|
  {
    With(s, i, s.bufs[i].(dirty := false)).(disk := s.disk[s.bufs[i].key := s.bufs[i].data])
  }

  /** bunpin of buffer i, which leaves the set of pinned blocks. */
  function Unpinned(s: State, i: int): State
    requires 0 <= i < |s.bufs|
  {
    With(s, i, s.bufs[i].(refcnt := s.bufs[i].refcnt - 1)).(logged := s.logged - {s.bufs[i].key})
  }

  function HeaderBlock(lh: seq<Key>): Block {
    [|lh|] + seq(|lh|, i requires 0 <= i < |lh| => lh[i].bn)
  }

  /** One step of a round of write_log (from the home buffer to the log buffer) or install_trans (the other way). */
  function RoundStep(s: State, i: int): (r: State)
    requires s.pc.Round?
    ensures |r.bufs| == |s.bufs| && r.head == s.head
  {
    var pc := s.pc;
    if pc.stage.GetFirst? then
      if pc.n >= |s.lh| then s.(lh := if pc.install then [] else s.lh, pc := Head(pc.install, GetFirst, 0))
      else if Got(s, i, LogKey(s.head, pc.n)) then s.(pc := pc.(stage := GetSecond, l := i)) else s
    else if pc.stage.GetSecond? then
      if 0 <= pc.n < |s.lh| && Got(s, i, s.lh[pc.n]) then s.(pc := pc.(stage := Copy, d := i)) else s
    else if !(0 <= pc.l < |s.bufs| && 0 <= pc.d < |s.bufs|) then s
    else if pc.stage.Copy? then Copied(s, Target(pc), s.bufs[Source(pc)].data).(pc := pc.(stage := Store))
    else if pc.stage.Store? then Stored(s, Target(pc)).(pc := pc.(stage := if pc.install then Unpin else ReleaseSource))
    else if pc.stage.Unpin? then Unpinned(s, pc.d).(pc := pc.(stage := ReleaseSource))
    else if pc.stage.ReleaseSource? then
      With(s, Source(pc), Released(s.bufs[Source(pc)], s.me)).(pc := pc.(stage := ReleaseTarget))
    else With(s, Target(pc), Released(s.bufs[Target(pc)], s.me)).(pc := Round(pc.install, pc.n + 1, GetFirst, 0, 0))
  }

  /** One step of write_head, before install_trans or (last) after it. */
  function HeadStep(s: State, i: int): (r: State)
    requires s.pc.Head?
    ensures |r.bufs| == |s.bufs| && r.head == s.head
  {
    var pc := s.pc;
    if pc.part.GetFirst? then if Got(s, i, s.head) then s.(pc := pc.(part := Copy, h := i)) else s
    else if !(0 <= pc.h < |s.bufs|) then s
    else if pc.part.Copy? then Copied(s, pc.h, HeaderBlock(s.lh)).(pc := pc.(part := Store))
    else if pc.part.Store? then Stored(s, pc.h).(pc := pc.(part := ReleaseTarget))
    else With(s, pc.h, Released(s.bufs[pc.h], s.me)).(pc := if pc.last then Quiet else Round(true, 0, GetFirst, 0, 0))
  }

  /** A step of thread t on buffer i; a step that is not possible leaves the state as it is. */
  ghost function Next(s: State, t: int, i: int, a: Action): State
    requires 0 <= i < |s.bufs| && t != NOBODY
  {
    var b := s.bufs[i];
    match a
    case Hit(k) =>
      if b.key == k && k.dev != 0 then With(s, i, b.(refcnt := b.refcnt + 1, users := b.users + multiset{t})) else s
    case Recycle(k) =>
      if k.dev != 0 && NotCached(s, k) && b.refcnt == 0
      then With(s, i, b.(key := k, valid := false, refcnt := 1, users := multiset{t})) else s
    case Acquire => if t in b.users && b.lockedBy == NOBODY then With(s, i, b.(lockedBy := t)) else s
    case Fill => if b.lockedBy == t && !b.valid then With(s, i, b.(data := OnDisk(s, b.key), valid := true)) else s
    case Modify(d) =>
      if t in s.active && b.lockedBy == t && b.valid && !InLog(s.head, b.key) then
        With(s, i, b.(data := d, dirty := true))
      else s
    case LogWrite =>
      if t in s.active && b.lockedBy == t && b.valid && !InLog(s.head, b.key) && |s.lh| < LOGBLOCKS then
        LogWritten(s, i)
      else s
    case Brelse => if b.lockedBy == t && !b.dirty && (s.pc.Quiet? || t != s.me) then With(s, i, Released(b, t)) else s
    case BeginOp => if s.pc.Quiet? then s.(active := s.active + {t}) else s
    case EndOp =>
      if t in s.active && UsesNone(s, t) then
        var rest := s.active - {t};
        s.(active := rest, me := t, pc := if rest == {} && s.lh != [] then Round(false, 0, GetFirst, 0, 0) else Quiet)
      else s
    case Commit =>
      if t != s.me then s else if s.pc.Round? then RoundStep(s, i) else if s.pc.Head? then HeadStep(s, i) else s
  }

  ghost predicate Init(s: State) {
    && s.logged == map[] && s.lh == [] && s.active == {} && s.pc == Quiet && s.me != NOBODY && s.head.dev != 0
    && forall i :: 0 <= i < |s.bufs| ==>
       s.bufs[i] == Buf(Key(0, 0), false, 0, s.bufs[i].data, NOBODY, false, multiset{})
  }

  // ---- invariant ----

  /** Log slots below this have been unpinned. */
  function Low(pc: Pc): int {
    if pc.Round? && pc.install then (if pc.stage.ReleaseSource? || pc.stage.ReleaseTarget? then pc.n + 1 else pc.n)
    else 0
  }

  /** Log slots below this have their contents in the log on disk. */
  function Written(pc: Pc, n: int): int {
    match pc
    case Quiet => 0
    case Head(_, _, _) => n
    case Round(install, k, stage, _, _) =>
      if install then n else if stage.ReleaseSource? || stage.ReleaseTarget? then k + 1 else k
  }

  /** The buffer that the committing thread has copied into and not yet written. */
  predicate IsTarget(pc: Pc, i: int) {
    ((pc.Round? && pc.stage.Store?) || (pc.Head? && pc.part.Store?)) && i == Target(pc)
  }

  /** refcnt counts the users and the pin; a valid buffer not being changed holds what the block looks like. */
  ghost predicate BufOk(s: State, i: int)
    requires 0 <= i < |s.bufs|
  {
    var b := s.bufs[i];
    && b.refcnt == |b.users| + (if b.key in s.logged then 1 else 0)
    && (b.lockedBy != NOBODY ==> b.lockedBy in b.users)
    && (b.dirty ==> b.valid && b.lockedBy != NOBODY)
    && (b.dirty ==> (b.lockedBy in s.active && !InLog(s.head, b.key)) || IsTarget(s.pc, i))
    && (b.valid && !b.dirty ==> b.data == View(s, b.key))
    && (b.key.dev == 0 ==> !b.valid && b.users == multiset{})
  }

  /** A block has at most one buffer. */
  predicate UniqueOk(s: State, i: int, j: int)
    requires 0 <= i < |s.bufs| && 0 <= j < |s.bufs|
  {
    s.bufs[i].key == s.bufs[j].key && s.bufs[i].key.dev != 0 ==> i == j
  }

  /** A pinned block is outside the log, in a valid buffer and in one log slot. */
  ghost predicate PinOk(s: State, k: Key) {
    k in s.logged ==>
      var p := s.logged[k];
      && k.dev != 0 && !InLog(s.head, k) && 0 <= p.slot < |s.bufs| && s.bufs[p.slot].key == k && s.bufs[p.slot].valid
      && 0 <= p.at && Low(s.pc) <= p.at < |s.lh| && s.lh[p.at] == k
  }

  /** A log slot that is not yet done with, and its copy on disk once that is written. */
  ghost predicate SlotOk(s: State, n: int)
    requires 0 <= n < |s.lh|
  {
    && s.lh[n] in s.logged && s.logged[s.lh[n]].at == n
    && (n < Written(s.pc, |s.lh|) ==> OnDisk(s, LogKey(s.head, n)) == s.logged[s.lh[n]].data)
  }

  predicate HoldsLog(pc: Pc)
    requires pc.Round?
  {
    !pc.stage.GetFirst? && (pc.stage.ReleaseTarget? ==> !pc.install)
  }

  predicate HoldsHome(pc: Pc)
    requires pc.Round?
  {
    !pc.stage.GetFirst? && !pc.stage.GetSecond? && (pc.stage.ReleaseTarget? ==> pc.install)
  }

  /** A copy about to be written is the source's contents; at bunpin the disk has the logged contents. */
  ghost predicate RoundOk(s: State)
    requires s.pc.Round?
  {
    var pc := s.pc;
    && 0 <= pc.n <= |s.lh| && (!pc.stage.GetFirst? ==> pc.n < |s.lh| && 0 <= pc.l < |s.bufs|)
    && (!pc.stage.GetFirst? && !pc.stage.GetSecond? ==> 0 <= pc.d < |s.bufs|)
    && (HoldsLog(pc) ==> Got(s, pc.l, LogKey(s.head, pc.n))) && (HoldsHome(pc) ==> Got(s, pc.d, s.lh[pc.n]))
    && (HoldsLog(pc) && HoldsHome(pc) ==> pc.l != pc.d)
    && (pc.stage.Store? ==> s.bufs[Target(pc)].dirty && s.bufs[Target(pc)].data == s.bufs[Source(pc)].data)
    && (pc.stage.Unpin? ==> pc.install && s.lh[pc.n] in s.logged && OnDisk(s, s.lh[pc.n]) == s.logged[s.lh[pc.n]].data)
  }

  ghost predicate PcOk(s: State) {
    && |s.lh| <= LOGBLOCKS && s.me != NOBODY && NOBODY !in s.active && s.head.dev != 0
    && (!s.pc.Quiet? ==> s.active == {})
    && (s.pc.Round? ==> RoundOk(s))
    && (s.pc.Head? ==> (s.pc.last ==> s.lh == []) && (!s.pc.part.GetFirst? ==> Got(s, s.pc.h, s.head)))
  }

  ghost predicate BufsOk(s: State) {
    && (forall i {:trigger BufOk(s, i)} :: 0 <= i < |s.bufs| ==> BufOk(s, i))
    && (forall i, j {:trigger UniqueOk(s, i, j)} :: 0 <= i < |s.bufs| && 0 <= j < |s.bufs| ==> UniqueOk(s, i, j))
  }

  ghost predicate PinsOk(s: State) {
    && (forall k {:trigger PinOk(s, k)} :: PinOk(s, k))
    && (forall n {:trigger SlotOk(s, n)} :: 0 <= Low(s.pc) <= n < |s.lh| ==> SlotOk(s, n))
  }

  ghost predicate Inv(s: State) {
    BufsOk(s) && PinsOk(s) && PcOk(s)
  }

  // ---- steps that change one buffer ----

  /** Buffer i may become b: its block stays, and so does what the committing thread relies on. */
  ghost predicate Harmless(s: State, i: int, b: Buf)
    requires 0 <= i < |s.bufs|
  {
    var a := s.bufs[i];
    && b.key == a.key && (a.valid ==> b.valid)
    && (!s.pc.Quiet? && a.lockedBy == s.me && a.valid ==> b.lockedBy == s.me && b.data == a.data && b.dirty == a.dirty)
  }

  lemma OneBuf(s: State, i: int, b: Buf)
    requires Inv(s) && 0 <= i < |s.bufs| && Harmless(s, i, b) && BufOk(With(s, i, b), i)
    ensures Inv(With(s, i, b))
  {
    var s' := With(s, i, b);
    forall j | 0 <= j < |s'.bufs|
      ensures BufOk(s', j)
    {
      assert BufOk(s, j);
    }
    forall j, l | 0 <= j < |s'.bufs| && 0 <= l < |s'.bufs|
      ensures UniqueOk(s', j, l)
    {
      assert UniqueOk(s, j, l);
    }
    forall k
      ensures PinOk(s', k)
    {
      assert PinOk(s, k);
    }
    forall n | 0 <= Low(s'.pc) <= n < |s'.lh|
      ensures SlotOk(s', n)
    {
      assert SlotOk(s, n);
    }
  }

  lemma ReaderKeepsInv(s: State, t: int, i: int, a: Action)
    requires Inv(s) && 0 <= i < |s.bufs| && t != NOBODY && (a.Hit? || a.Acquire? || a.Fill?)
    ensures Inv(Next(s, t, i, a))
  {
    assert BufOk(s, i);
    if a.Fill? && s.bufs[i].key in s.logged {
      assert PinOk(s, s.bufs[i].key) && UniqueOk(s, i, s.logged[s.bufs[i].key].slot);
    }
    if Next(s, t, i, a) != s {
      OneBuf(s, i, Next(s, t, i, a).bufs[i]);
    }
  }

  lemma OwnerKeepsInv(s: State, t: int, i: int, a: Action)
    requires Inv(s) && 0 <= i < |s.bufs| && t != NOBODY && (a.Modify? || a.Brelse?)
    ensures Inv(Next(s, t, i, a))
  {
    assert BufOk(s, i);
    if Next(s, t, i, a) != s {
      OneBuf(s, i, Next(s, t, i, a).bufs[i]);
    }
  }

  // ---- recycling and logging ----

  /** The buffer that bget recycles is not in use and not pinned. */
  lemma RecycleKeepsBufs(s: State, t: int, i: int, k: Key)
    requires Inv(s) && 0 <= i < |s.bufs| && t != NOBODY
    ensures BufsOk(Next(s, t, i, Recycle(k)))
  {
    var s' := Next(s, t, i, Recycle(k));
    assert BufOk(s, i);
    if k in s.logged {
      assert PinOk(s, k);
    }
    forall j | 0 <= j < |s'.bufs|
      ensures BufOk(s', j)
    {
      assert BufOk(s, j);
    }
    forall j, l | 0 <= j < |s'.bufs| && 0 <= l < |s'.bufs|
      ensures UniqueOk(s', j, l)
    {
      assert UniqueOk(s, j, l);
    }
  }

  lemma RecycleKeepsInv(s: State, t: int, i: int, k: Key)
    requires Inv(s) && 0 <= i < |s.bufs| && t != NOBODY
    ensures Inv(Next(s, t, i, Recycle(k)))
  {
    var s' := Next(s, t, i, Recycle(k));
    RecycleKeepsBufs(s, t, i, k);
    assert BufOk(s, i);
    forall p
      ensures PinOk(s', p)
    {
      assert PinOk(s, p);
    }
    forall n | 0 <= Low(s'.pc) <= n < |s'.lh|
      ensures SlotOk(s', n)
    {
      assert SlotOk(s, n);
    }
  }

  lemma LogWriteKeepsInv(s: State, t: int, i: int)
    requires Inv(s) && 0 <= i < |s.bufs| && t in s.active && s.bufs[i].lockedBy == t && s.bufs[i].valid
    requires !InLog(s.head, s.bufs[i].key) && |s.lh| < LOGBLOCKS
    ensures Inv(LogWritten(s, i))
  {
    var s', k := LogWritten(s, i), s.bufs[i].key;
    assert BufOk(s, i) && s.pc.Quiet?;
    if k in s.logged {
      assert PinOk(s, k) && UniqueOk(s, i, s.logged[k].slot);
    }
    forall j | 0 <= j < |s'.bufs|
      ensures BufOk(s', j)
    {
      assert BufOk(s, j) && UniqueOk(s, i, j);
    }
    forall j, l | 0 <= j < |s'.bufs| && 0 <= l < |s'.bufs|
      ensures UniqueOk(s', j, l)
    {
      assert UniqueOk(s, j, l);
    }
    forall p
      ensures PinOk(s', p)
    {
      assert PinOk(s, p);
    }
    forall n | 0 <= n < |s'.lh|
      ensures SlotOk(s', n)
    {
      assert n < |s.lh| ==> SlotOk(s, n);
    }
  }

  // ---- steps that change the phase only ----

  /** Only active, me and pc change, and the committing thread has nothing in hand. */
  lemma PhaseChange(s: State, s': State)
    requires Inv(s) && PcOk(s') && s'.bufs == s.bufs && s'.disk == s.disk
    requires s'.logged == s.logged && s'.lh == s.lh && s'.head == s.head
    requires Low(s'.pc) == Low(s.pc) &&
             (Written(s'.pc, |s.lh|) <= Written(s.pc, |s.lh|) || |s.lh| <= Written(s.pc, |s.lh|))
    requires forall j :: 0 <= j < |s.bufs| && s.bufs[j].dirty ==> BufOk(s', j)
    ensures Inv(s')
  {
    forall j | 0 <= j < |s'.bufs|
      ensures BufOk(s', j)
    {
      assert BufOk(s, j);
    }
    forall j, l | 0 <= j < |s'.bufs| && 0 <= l < |s'.bufs|
      ensures UniqueOk(s', j, l)
    {
      assert UniqueOk(s, j, l);
    }
    forall p
      ensures PinOk(s', p)
    {
      assert PinOk(s, p);
    }
    forall n | 0 <= Low(s'.pc) <= n < |s'.lh|
      ensures SlotOk(s', n)
    {
      assert SlotOk(s, n);
    }
  }

  lemma OpKeepsInv(s: State, t: int, i: int, a: Action)
    requires Inv(s) && 0 <= i < |s.bufs| && t != NOBODY && (a.BeginOp? || a.EndOp?)
    ensures Inv(Next(s, t, i, a))
  {
    var s' := Next(s, t, i, a);
    if s' != s {
      assert s.pc.Quiet?;
      forall j | 0 <= j < |s.bufs| && s.bufs[j].dirty
        ensures BufOk(s', j)
      {
        assert BufOk(s, j);
      }
      PhaseChange(s, s');
    }
  }

  // ---- the commit ----

  /** No buffer but the target is changed while a commit is under way. */
  lemma OthersClean(s: State, j: int)
    requires Inv(s) && !s.pc.Quiet? && 0 <= j < |s.bufs| && !IsTarget(s.pc, j)
    ensures !s.bufs[j].dirty
  {
    assert BufOk(s, j);
  }

  /** bread has returned, or all rounds of write_log are done. */
  lemma GetKeepsInv(s: State, i: int)
    requires Inv(s) && s.pc.Round? && (s.pc.stage.GetFirst? || s.pc.stage.GetSecond?)
    requires s.pc.stage.GetFirst? && s.pc.n >= |s.lh| ==> !s.pc.install
    ensures Inv(RoundStep(s, i))
  {
    forall j | 0 <= j < |s.bufs|
      ensures !s.bufs[j].dirty
    {
      OthersClean(s, j);
    }
    if s.pc.n < |s.lh| {
      assert SlotOk(s, s.pc.n) && PinOk(s, s.lh[s.pc.n]) && InLog(s.head, LogKey(s.head, s.pc.n));
    }
    PhaseChange(s, RoundStep(s, i));
  }

  /** All rounds of install_trans are done: nothing is pinned any more, and the log is empty. */
  lemma InstalledKeepsInv(s: State, i: int)
    requires Inv(s) && s.pc.Round? && s.pc.stage.GetFirst? && s.pc.install && s.pc.n >= |s.lh|
    ensures Inv(RoundStep(s, i)) && s.logged == map[]
  {
    forall k
      ensures k !in s.logged
    {
      assert PinOk(s, k);
    }
    var s' := RoundStep(s, i);
    forall j | 0 <= j < |s'.bufs|
      ensures BufOk(s', j)
    {
      assert BufOk(s, j);
      OthersClean(s, j);
    }
    forall j, l | 0 <= j < |s'.bufs| && 0 <= l < |s'.bufs|
      ensures UniqueOk(s', j, l)
    {
      assert UniqueOk(s, j, l);
    }
  }

  /** The committing thread changes or releases buffer i and goes on. */
  lemma OneBufPc(s: State, i: int, b: Buf, pc: Pc)
    requires Inv(s) && 0 <= i < |s.bufs| && !s.pc.Quiet? && b.key == s.bufs[i].key && b.valid
    requires var s' := With(s, i, b).(pc := pc); BufOk(s', i) && PcOk(s')
    requires Low(pc) == Low(s.pc) && Written(pc, |s.lh|) <= Written(s.pc, |s.lh|) &&
             (IsTarget(s.pc, i) || forall j :: !IsTarget(s.pc, j))
    ensures Inv(With(s, i, b).(pc := pc))
  {
    var s' := With(s, i, b).(pc := pc);
    forall j | 0 <= j < |s'.bufs|
      ensures BufOk(s', j)
    {
      assert BufOk(s, j);
      if j != i {
        OthersClean(s, j);
      }
    }
    forall j, l | 0 <= j < |s'.bufs| && 0 <= l < |s'.bufs|
      ensures UniqueOk(s', j, l)
    {
      assert UniqueOk(s, j, l);
    }
    forall k
      ensures PinOk(s', k)
    {
      assert PinOk(s, k);
    }
    forall n | 0 <= Low(s'.pc) <= n < |s'.lh|
      ensures SlotOk(s', n)
    {
      assert SlotOk(s, n);
    }
  }

  lemma CopyKeepsInv(s: State, i: int)
    requires Inv(s) && s.pc.Round? && s.pc.stage.Copy?
    ensures Inv(RoundStep(s, i))
  {
    var pc, s' := s.pc, RoundStep(s, i);
    var j := Target(pc);
    assert BufOk(s, j);
    OneBufPc(s, j, s'.bufs[j], s'.pc);
  }

  /** brelse by the committing thread of a buffer it has not changed. */
  lemma ReleasedOk(s: State, j: int, pc: Pc)
    requires 0 <= j < |s.bufs| && BufOk(s, j) && s.bufs[j].valid && !s.bufs[j].dirty &&
             s.bufs[j].lockedBy == s.me != NOBODY
    ensures BufOk(With(s, j, Released(s.bufs[j], s.me)).(pc := pc), j)
  {
  }

  lemma ReleaseSourceKeepsInv(s: State, i: int)
    requires Inv(s) && s.pc.Round? && s.pc.stage.ReleaseSource?
    ensures Inv(RoundStep(s, i))
  {
    var pc, s' := s.pc, RoundStep(s, i);
    var j := Source(pc);
    assert BufOk(s, j);
    OthersClean(s, j);
    ReleasedOk(s, j, s'.pc);
    OneBufPc(s, j, s'.bufs[j], s'.pc);
  }

  lemma ReleaseTargetKeepsInv(s: State, i: int)
    requires Inv(s) && s.pc.Round? && s.pc.stage.ReleaseTarget?
    ensures Inv(RoundStep(s, i))
  {
    var pc, s' := s.pc, RoundStep(s, i);
    var j := Target(pc);
    assert BufOk(s, j);
    OthersClean(s, j);
    ReleasedOk(s, j, s'.pc);
    OneBufPc(s, j, s'.bufs[j], s'.pc);
  }

  lemma HeadKeepsInv(s: State, i: int)
    requires Inv(s) && s.pc.Head? && !s.pc.part.Store? && !s.pc.part.GetFirst?
    ensures Inv(HeadStep(s, i))
  {
    var pc, s' := s.pc, HeadStep(s, i);
    assert BufOk(s, pc.h);
    OthersClean(s, pc.h);
    OneBufPc(s, pc.h, s'.bufs[pc.h], s'.pc);
  }

  lemma HeadGetKeepsInv(s: State, i: int)
    requires Inv(s) && s.pc.Head? && s.pc.part.GetFirst?
    ensures Inv(HeadStep(s, i))
  {
    forall j | 0 <= j < |s.bufs|
      ensures !s.bufs[j].dirty
    {
      OthersClean(s, j);
    }
    PhaseChange(s, HeadStep(s, i));
  }

  /** bwrite of buffer i, whose contents are what the block looks like, or will look like in the log. */
  lemma StoreKeepsInv(s: State, i: int, pc: Pc)
    requires Inv(s) && IsTarget(s.pc, i) && 0 <= i < |s.bufs| && s.bufs[i].valid && s.bufs[i].lockedBy == s.me &&
             s.bufs[i].key.dev != 0
    requires s.bufs[i].key in s.logged ==> s.bufs[i].data == s.logged[s.bufs[i].key].data
    requires PcOk(Stored(s, i).(pc := pc)) && Low(pc) == Low(s.pc) && forall j :: !IsTarget(pc, j)
    requires forall n :: Low(pc) <= n < Written(pc, |s.lh|) && n < |s.lh| && 0 <= n ==>
      if LogKey(s.head, n) == s.bufs[i].key then s.lh[n] in s.logged && s.bufs[i].data == s.logged[s.lh[n]].data
      else n < Written(s.pc, |s.lh|)
    ensures Inv(Stored(s, i).(pc := pc))
  {
    var s' := Stored(s, i).(pc := pc);
    forall j | 0 <= j < |s'.bufs|
      ensures BufOk(s', j)
    {
      assert BufOk(s, j) && UniqueOk(s, i, j);
      if j != i {
        OthersClean(s, j);
      }
    }
    forall j, l | 0 <= j < |s'.bufs| && 0 <= l < |s'.bufs|
      ensures UniqueOk(s', j, l)
    {
      assert UniqueOk(s, j, l);
    }
    forall k
      ensures PinOk(s', k)
    {
      assert PinOk(s, k);
    }
    forall n | 0 <= Low(s'.pc) <= n < |s'.lh|
      ensures SlotOk(s', n)
    {
      assert SlotOk(s, n);
    }
  }

  /** What write_log's and install_trans's bwrite put on disk is the logged contents. */
  lemma SourceIsLogged(s: State)
    requires Inv(s) && s.pc.Round? && s.pc.stage.Store?
    ensures var k := s.lh[s.pc.n];
            k in s.logged && !InLog(s.head, k) && s.bufs[Target(s.pc)].data == s.logged[k].data
  {
    var pc := s.pc;
    assert SlotOk(s, pc.n) && PinOk(s, s.lh[pc.n]);
    assert BufOk(s, Source(pc));
    OthersClean(s, Source(pc));
    assert InLog(s.head, LogKey(s.head, pc.n));
    assert PinOk(s, LogKey(s.head, pc.n));
  }

  lemma RoundStoreKeepsInv(s: State, i: int)
    requires Inv(s) && s.pc.Round? && s.pc.stage.Store?
    ensures Inv(RoundStep(s, i))
  {
    var pc, s' := s.pc, RoundStep(s, i);
    var k := s.bufs[Target(pc)].key;
    SourceIsLogged(s);
    assert BufOk(s, Target(pc)) && PinOk(s, s.lh[pc.n]);
    assert InLog(s.head, LogKey(s.head, pc.n)) && PinOk(s, LogKey(s.head, pc.n));
    forall n | Low(s'.pc) <= n < Written(s'.pc, |s.lh|) && n < |s.lh| && 0 <= n
      ensures if LogKey(s.head, n) == k then s.lh[n] in s.logged && s.bufs[Target(pc)].data == s.logged[s.lh[n]].data
              else n < Written(pc, |s.lh|)
    {
      assert InLog(s.head, LogKey(s.head, n));
    }
    StoreKeepsInv(s, Target(pc), s'.pc);
  }

  lemma HeadStoreKeepsInv(s: State, i: int)
    requires Inv(s) && s.pc.Head? && s.pc.part.Store?
    ensures Inv(HeadStep(s, i))
  {
    var pc, s' := s.pc, HeadStep(s, i);
    assert BufOk(s, pc.h) && InLog(s.head, s.head) && PinOk(s, s.head);
    StoreKeepsInv(s, pc.h, s'.pc);
  }

  /** bunpin: the disk already holds what was logged. */
  lemma UnpinKeepsInv(s: State, i: int)
    requires Inv(s) && s.pc.Round? && s.pc.stage.Unpin?
    ensures Inv(RoundStep(s, i))
  {
    var pc, s' := s.pc, RoundStep(s, i);
    var key := s.lh[pc.n];
    assert BufOk(s, pc.d) && SlotOk(s, pc.n);
    forall j | 0 <= j < |s'.bufs|
      ensures BufOk(s', j)
    {
      assert BufOk(s, j) && UniqueOk(s, pc.d, j);
      OthersClean(s, j);
    }
    forall j, l | 0 <= j < |s'.bufs| && 0 <= l < |s'.bufs|
      ensures UniqueOk(s', j, l)
    {
      assert UniqueOk(s, j, l);
    }
    forall k
      ensures PinOk(s', k)
    {
      assert PinOk(s, k);
    }
    forall n | 0 <= Low(s'.pc) <= n < |s'.lh|
      ensures SlotOk(s', n)
    {
      assert SlotOk(s, n);
    }
  }

  lemma RoundKeepsInv(s: State, i: int)
    requires Inv(s) && s.pc.Round?
    ensures Inv(RoundStep(s, i))
  {
    match s.pc.stage
    case GetFirst =>
      if s.pc.install && s.pc.n >= |s.lh| {
        InstalledKeepsInv(s, i);
      } else {
        GetKeepsInv(s, i);
      }
    case GetSecond => GetKeepsInv(s, i);
    case Copy => CopyKeepsInv(s, i);
    case Store => RoundStoreKeepsInv(s, i);
    case Unpin => UnpinKeepsInv(s, i);
    case ReleaseSource => ReleaseSourceKeepsInv(s, i);
    case ReleaseTarget => ReleaseTargetKeepsInv(s, i);
  }

  lemma CommitKeepsInv(s: State, t: int, i: int)
    requires Inv(s) && 0 <= i < |s.bufs| && t != NOBODY
    ensures Inv(Next(s, t, i, Commit))
  {
    if t == s.me && s.pc.Head? {
      if s.pc.part.Store? {
        HeadStoreKeepsInv(s, i);
      } else if s.pc.part.GetFirst? {
        HeadGetKeepsInv(s, i);
      } else {
        HeadKeepsInv(s, i);
      }
    } else if t == s.me && s.pc.Round? {
      RoundKeepsInv(s, i);
    }
  }

  lemma LogKeepsInv(s: State, t: int, i: int)
    requires Inv(s) && 0 <= i < |s.bufs| && t != NOBODY
    ensures Inv(Next(s, t, i, LogWrite))
  {
    if Next(s, t, i, LogWrite) != s {
      LogWriteKeepsInv(s, t, i);
    }
  }

  lemma StepKeepsSize(s: State, t: int, i: int, a: Action)
    requires 0 <= i < |s.bufs| && t != NOBODY
    ensures |Next(s, t, i, a).bufs| == |s.bufs| && Next(s, t, i, a).head == s.head
  {
  }

  lemma StepKeepsInv(s: State, t: int, i: int, a: Action)
    requires Inv(s) && 0 <= i < |s.bufs| && t != NOBODY
    ensures Inv(Next(s, t, i, a)) && |Next(s, t, i, a).bufs| == |s.bufs|
  {
    StepKeepsSize(s, t, i, a);
    match a
    case Hit(_) => ReaderKeepsInv(s, t, i, a);
    case Acquire => ReaderKeepsInv(s, t, i, a);
    case Fill => ReaderKeepsInv(s, t, i, a);
    case Modify(_) => OwnerKeepsInv(s, t, i, a);
    case Brelse => OwnerKeepsInv(s, t, i, a);
    case Recycle(k) => RecycleKeepsInv(s, t, i, k);
    case LogWrite => LogKeepsInv(s, t, i);
    case BeginOp => OpKeepsInv(s, t, i, a);
    case EndOp => OpKeepsInv(s, t, i, a);
    case Commit => CommitKeepsInv(s, t, i);
  }

  // ---- every reachable state ----

  datatype Event = Event(thread: int, buf: int, action: Action)

  ghost function Run(s: State, run: seq<Event>): (r: State)
    ensures |r.bufs| == |s.bufs| && r.head == s.head
  {
    if run == [] then s
    else
      var before := Run(s, run[..|run| - 1]);
      var e := run[|run| - 1];
      StepIn(before, e)
  }

  /** The step of an event, if there is such a buffer and thread. */
  ghost function StepIn(s: State, e: Event): (r: State)
    ensures |r.bufs| == |s.bufs| && r.head == s.head
  {
    if 0 <= e.buf < |s.bufs| && e.thread != NOBODY then
      StepKeepsSize(s, e.thread, e.buf, e.action);
      Next(s, e.thread, e.buf, e.action)
    else s
  }

  lemma {:induction false} RunKeepsInv(s: State, run: seq<Event>)
    requires Inv(s)
    ensures Inv(Run(s, run))
  {
    if run != [] {
      RunKeepsInv(s, run[..|run| - 1]);
      var e := run[|run| - 1];
      if 0 <= e.buf < |s.bufs| && e.thread != NOBODY {
        StepKeepsInv(Run(s, run[..|run| - 1]), e.thread, e.buf, e.action);
      }
    }
  }

  lemma InitInv(s: State)
    requires Init(s)
    ensures Inv(s)
  {
  }

  /**
   In every reachable state: no two buffers cache the same block; the buffer of a logged block has a
   positive refcnt; and a buffer that a thread has read and not changed holds the disk contents overlaid
   by the logged writes.
   */
  lemma CacheRefinesView(s: State, run: seq<Event>, i: int, j: int)
    requires Init(s) && 0 <= i < |s.bufs| && 0 <= j < |s.bufs|
    ensures var r := Run(s, run);
            && (r.bufs[i].key == r.bufs[j].key && r.bufs[i].key.dev != 0 ==> i == j)
            && (r.bufs[i].key in r.logged ==> r.bufs[i].refcnt > 0 && r.bufs[i].valid)
            && (r.bufs[i].valid && !r.bufs[i].dirty ==> r.bufs[i].data == View(r, r.bufs[i].key))
  {
    InitInv(s);
    RunKeepsInv(s, run);
    var r := Run(s, run);
    assert BufOk(r, i) && UniqueOk(r, i, j);
    if r.bufs[i].key in r.logged {
      assert PinOk(r, r.bufs[i].key) && UniqueOk(r, i, r.logged[r.bufs[i].key].slot);
    }
  }

  /** Whenever install_trans comes to bunpin, bwrite has put the logged contents of that block on the disk. */
  lemma UnpinFindsInstalled(s: State, run: seq<Event>)
    requires Init(s) && Run(s, run).pc.Round? && Run(s, run).pc.stage.Unpin?
    ensures var r := Run(s, run);
            && 0 <= r.pc.d < |r.bufs| && r.bufs[r.pc.d].key in r.logged
            && OnDisk(r, r.bufs[r.pc.d].key) == r.logged[r.bufs[r.pc.d].key].data
  {
    InitInv(s);
    RunKeepsInv(s, run);
  }

  /** No step takes a buffer away from a logged block: only the bunpin of install_trans ends that. */
  lemma LoggedNotRecycled(s: State, t: int, i: int, a: Action, j: int)
    requires Inv(s) && 0 <= i < |s.bufs| && 0 <= j < |s.bufs| && t != NOBODY && s.bufs[j].key in s.logged
    ensures Next(s, t, i, a).bufs[j].key == s.bufs[j].key && Next(s, t, i, a).bufs[j].valid
    ensures s.bufs[j].key !in Next(s, t, i, a).logged ==> a == Commit && s.pc.Round? && s.pc.stage.Unpin? && s.pc.d == j
  {
    assert BufOk(s, j) && PinOk(s, s.bufs[j].key) && UniqueOk(s, j, s.logged[s.bufs[j].key].slot);
    if a.Commit? && s.pc.Round? {
      RoundKeepsKeys(s, i, j);
    }
  }

  lemma RoundKeepsKeys(s: State, i: int, j: int)
    requires Inv(s) && s.pc.Round? && 0 <= j < |s.bufs| && s.bufs[j].key.dev != 0
    ensures RoundStep(s, i).bufs[j].key == s.bufs[j].key && RoundStep(s, i).bufs[j].valid == s.bufs[j].valid
    ensures s.bufs[j].key in s.logged && s.bufs[j].key !in RoundStep(s, i).logged ==> s.pc.stage.Unpin? && s.pc.d == j
  {
    if s.pc.stage.Unpin? {
      assert UniqueOk(s, s.pc.d, j);
    }
  }

  /** What a block outside the log looks like changes only when a thread in a transaction logs its buffer. */
  lemma ViewChanges(s: State, t: int, i: int, a: Action, k: Key)
    requires Inv(s) && 0 <= i < |s.bufs| && t != NOBODY && !InLog(s.head, k) && View(Next(s, t, i, a), k) != View(s, k)
    ensures a == LogWrite && s.pc.Quiet? && t in s.active && s.bufs[i].key == k && s.bufs[i].lockedBy == t
    ensures View(Next(s, t, i, a), k) == s.bufs[i].data
  {
    if a.Commit? {
      CommitKeepsView(s, t, i, k);
    }
  }

  lemma CommitKeepsView(s: State, t: int, i: int, k: Key)
    requires Inv(s) && 0 <= i < |s.bufs| && t != NOBODY && !InLog(s.head, k)
    ensures View(Next(s, t, i, Commit), k) == View(s, k)
  {
    assert InLog(s.head, s.head);
    if t == s.me && s.pc.Round? {
      RoundKeepsView(s, i, k);
    }
  }

  lemma RoundKeepsView(s: State, i: int, k: Key)
    requires Inv(s) && s.pc.Round? && !InLog(s.head, k)
    ensures View(RoundStep(s, i), k) == View(s, k)
  {
    if s.pc.stage.Store? {
      SourceIsLogged(s);
      assert InLog(s.head, LogKey(s.head, s.pc.n));
    }
  }

  /** Commit is under way through all of the run. */
  ghost predicate Committing(s: State, run: seq<Event>) {
    forall m :: 0 <= m <= |run| ==> !Run(s, run[..m]).pc.Quiet?
  }

  /**
   The whole commit, whatever other threads read meanwhile: no block outside the log looks different at any
   time, and once all rounds of install_trans are done every one of them is on disk as it looked at the start.
   */
  lemma {:induction false} CommitInstalls(s: State, run: seq<Event>, k: Key)
    requires Inv(s) && Committing(s, run) && !InLog(s.head, k)
    ensures var r := Run(s, run);
            Inv(r) && View(r, k) == View(s, k) && (r.pc.Head? && r.pc.last ==> OnDisk(r, k) == View(s, k))
  {
    RunKeepsInv(s, run);
    if run != [] {
      var front, e := run[..|run| - 1], run[|run| - 1];
      assert forall m :: 0 <= m <= |front| ==> front[..m] == run[..m];
      CommitInstalls(s, front, k);
      assert run[..|front|] == front;
      if 0 <= e.buf < |s.bufs| && e.thread != NOBODY && View(Run(s, run), k) != View(Run(s, front), k) {
        ViewChanges(Run(s, front), e.thread, e.buf, e.action, k);
      }
    }
    var r := Run(s, run);
    assert PinOk(r, k);
  }

  /** The commit is never stuck on its own account: a step that does not wait for bread is always possible. */
  lemma CommitMoves(s: State, i: int)
    requires Inv(s) && !s.pc.Quiet? && 0 <= i < |s.bufs|
    requires s.pc.Round? && s.pc.stage.GetFirst? && s.pc.n < |s.lh| ==> Got(s, i, LogKey(s.head, s.pc.n))
    requires s.pc.Round? && s.pc.stage.GetSecond? ==> Got(s, i, s.lh[s.pc.n])
    requires s.pc.Head? && s.pc.part.GetFirst? ==> Got(s, i, s.head)
    ensures Next(s, s.me, i, Commit).pc != s.pc
  {
  }
}
