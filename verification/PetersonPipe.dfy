/**
 The pipe whose two ends exclude each other with Peterson's algorithm, as a state machine. One
 thread writes, one thread reads, and every step makes at most one load from or store to the shared
 page, in sequentially consistent order.
 */
module PetersonPipe {
  import opened Params

  const PIPESIZE := 512

  // ---- Peterson's lock ----

  const WRITER := 0
  const READER := 1

  /** Where a thread is in peterson_acquire and peterson_release. */
  datatype Phase =
    | Out       // does not hold the lock and does not ask for it
    | SetFlag   // about to store flag[id] = 1
    | SetTurn   // about to store turn = other
    | LoadFlag  // about to load flag[other]
    | LoadTurn  // about to load turn
    | In        // holds the lock, up to and including the store flag[id] = 0

  /** flag[0], flag[1] and turn, and the phase of each thread. */
  datatype Lock = Lock(flagW: bool, flagR: bool, turn: int, writer: Phase, reader: Phase)

  function Flag(l: Lock, id: int): bool {
    if id == WRITER then l.flagW else l.flagR
  }

  function PhaseOf(l: Lock, id: int): Phase {
    if id == WRITER then l.writer else l.reader
  }

  function Store(l: Lock, id: int, flag: bool): Lock {
    if id == WRITER then l.(flagW := flag) else l.(flagR := flag)
  }

  function Goto(l: Lock, id: int, p: Phase): Lock {
    if id == WRITER then l.(writer := p) else l.(reader := p)
  }

  /** One step of peterson_acquire. */
  function AcquireStep(l: Lock, id: int): Lock {
    match PhaseOf(l, id)
    case SetFlag => Goto(Store(l, id, true), id, SetTurn)
    case SetTurn => Goto(l.(turn := 1 - id), id, LoadFlag)
    case LoadFlag => Goto(l, id, if Flag(l, 1 - id) then LoadTurn else In)
    case LoadTurn => Goto(l, id, if l.turn == 1 - id then LoadFlag else In)
    case _ => l
  }

  /** The store of peterson_release. */
  function ReleaseStep(l: Lock, id: int): Lock {
    Goto(Store(l, id, false), id, Out)
  }

  predicate Asking(p: Phase) {
    p == SetTurn || p == LoadFlag || p == LoadTurn || p == In
  }

  /** A holder has its flag up, is alone, and a waiter behind it has given it the turn. */
  predicate SideOk(l: Lock, id: int) {
    && (Flag(l, id) <==> Asking(PhaseOf(l, id)))
    && (PhaseOf(l, id) == In ==>
          && PhaseOf(l, 1 - id) != In
          && (PhaseOf(l, 1 - id) == LoadFlag || PhaseOf(l, 1 - id) == LoadTurn ==> l.turn == id))
  }

  predicate Mutex(l: Lock) {
    SideOk(l, WRITER) && SideOk(l, READER) && (l.turn == 0 || l.turn == 1)
  }

  lemma AcquireKeepsMutex(l: Lock, id: int)
    requires Mutex(l) && (id == WRITER || id == READER)
    ensures Mutex(AcquireStep(l, id))
  {
  }

  lemma ReleaseKeepsMutex(l: Lock, id: int)
    requires Mutex(l) && (id == WRITER || id == READER) && PhaseOf(l, id) == In
    ensures Mutex(ReleaseStep(l, id))
  {
  }

  // ---- the shared page ----

  datatype Page = Page(data: seq<int>, nread: int, nwrite: int, readopen: bool, writeopen: bool)

  /** The choices that the code leaves to its environment: killed(), copyin and copyout. */
  datatype Choice = Choice(killed: bool, fails: bool)

  // ---- the writer ----

  datatype WriterJob =
    // without the lock
    | WIdle
    | WAsleep(src: seq<int>, i: int)
    | WFreePage                                  // about to call kfree
    | WGone                                      // this end is closed
    // pipewrite
    | WTest(src: seq<int>, i: int)               // about to load readopen
    | WLoadNwrite(src: seq<int>, i: int)         // the full test
    | WLoadNread(src: seq<int>, i: int, w: int)
    | WFetch(src: seq<int>, i: int)              // data[nwrite++ % PIPESIZE] = ch
    | WPut(src: seq<int>, i: int, w: int)
    | WBump(src: seq<int>, i: int, w: int)
    // pipeclose
    | WClose                                     // about to clear writeopen
    | WLoadRead                                  // about to load readopen
    | WLoadWrite                                 // about to load writeopen
    // about to store flag[0] = 0, and what comes after that
    | WRelease(next: WriterJob)

  /** One step of the writer while it holds the lock; the last component is the byte that nwrite now counts. */
  function WriterWork(job: WriterJob, p: Page, c: Choice): (WriterJob, Page, seq<int>) {
    match job
    case WTest(src, i) =>
      if i >= |src| || !p.readopen || c.killed then (WRelease(WIdle), p, []) else (WLoadNwrite(src, i), p, [])
    case WLoadNwrite(src, i) => (WLoadNread(src, i, p.nwrite), p, [])
    case WLoadNread(src, i, w) =>
      if w == (p.nread + PIPESIZE) % UINT32 then (WRelease(WAsleep(src, i)), p, [])
      else if c.fails then (WRelease(WIdle), p, [])
      else (WFetch(src, i), p, [])
    case WFetch(src, i) => (WPut(src, i, p.nwrite), p, [])
    case WPut(src, i, w) =>
      if 0 <= i < |src| && w % PIPESIZE < |p.data| then
        (WBump(src, i, w), p.(data := p.data[w % PIPESIZE := src[i]]), [])
      else (job, p, [])
    case WBump(src, i, w) =>
      if 0 <= i < |src| then (WTest(src, i + 1), p.(nwrite := (w + 1) % UINT32), [src[i]]) else (job, p, [])
    case WClose => (WLoadRead, p.(writeopen := false), [])
    case WLoadRead => (if p.readopen then WRelease(WGone) else WLoadWrite, p, [])
    case WLoadWrite => (if p.writeopen then WRelease(WGone) else WRelease(WFreePage), p, [])
    case _ => (job, p, [])
  }

  // ---- the reader ----

  datatype ReaderJob =
    // without the lock
    | RIdle
    | RAsleep(n: int)
    | RFreePage
    | RGone
    // piperead
    | RLoadNread(n: int)                         // the empty test
    | RLoadNwrite(n: int, r: int)
    | RLoadOpen(n: int)
    | CLoadNread(n: int, i: int)                 // the test in the copy loop
    | CLoadNwrite(n: int, i: int, r: int)
    | CFetch(n: int, i: int)                     // ch = data[nread % PIPESIZE]
    | CByte(n: int, i: int, r: int)
    | CCopyOut(n: int, i: int, ch: int)
    | CReload(n: int, i: int)                    // nread++
    | CBump(n: int, i: int, r: int)
    // pipeclose
    | RClose                                     // about to clear readopen
    | RLoadRead
    | RLoadWrite
    | RRelease(next: ReaderJob)

  /** One step of the reader while it holds the lock; the last component is the byte copied out to the user. */
  function ReaderWork(job: ReaderJob, p: Page, c: Choice): (ReaderJob, Page, seq<int>) {
    match job
    case RLoadNread(n) => (RLoadNwrite(n, p.nread), p, [])
    case RLoadNwrite(n, r) => (if r == p.nwrite then RLoadOpen(n) else CLoadNread(n, 0), p, [])
    case RLoadOpen(n) =>
      (if !p.writeopen then CLoadNread(n, 0) else if c.killed then RRelease(RIdle) else RRelease(RAsleep(n)), p, [])
    case CLoadNread(n, i) => (if i < n then CLoadNwrite(n, i, p.nread) else RRelease(RIdle), p, [])
    case CLoadNwrite(n, i, r) => (if r == p.nwrite then RRelease(RIdle) else CFetch(n, i), p, [])
    case CFetch(n, i) => (CByte(n, i, p.nread), p, [])
    case CByte(n, i, r) =>
      if r % PIPESIZE < |p.data| then (CCopyOut(n, i, p.data[r % PIPESIZE]), p, []) else (job, p, [])
    case CCopyOut(n, i, ch) => if c.fails then (RRelease(RIdle), p, []) else (CReload(n, i), p, [ch])
    case CReload(n, i) => (CBump(n, i, p.nread), p, [])
    case CBump(n, i, r) => (CLoadNread(n, i + 1), p.(nread := (r + 1) % UINT32), [])
    case RClose => (RLoadRead, p.(readopen := false), [])
    case RLoadRead => (if p.readopen then RRelease(RGone) else RLoadWrite, p, [])
    case RLoadWrite => (if p.writeopen then RRelease(RGone) else RRelease(RFreePage), p, [])
    case _ => (job, p, [])
  }

  // ---- the machine ----

  datatype State = State(
    lock: Lock,
    page: Page,
    writer: WriterJob,
    reader: ReaderJob,
    accepted: seq<int>,   // bytes that nwrite has counted, in order
    delivered: seq<int>,  // bytes copied out to the reader, in order
    freed: int)           // number of calls of kfree

  /** Who moves, which call an idle thread makes next, and the environment's answers. */
  datatype Event =
    | WriterMoves(wcall: WriterJob, choice: Choice)
    | ReaderMoves(rcall: ReaderJob, choice: Choice)

  function WriterStep(s: State, call: WriterJob, c: Choice): State {
    match s.lock.writer
    case Out =>
      (match s.writer
       case WIdle =>
         if call == WClose || (call.WTest? && call.i == 0) then
           s.(lock := Goto(s.lock, WRITER, SetFlag), writer := call)
         else s
       case WAsleep(src, i) => s.(lock := Goto(s.lock, WRITER, SetFlag), writer := WTest(src, i))
       case WFreePage => s.(writer := WGone, freed := s.freed + 1)
       case _ => s)
    case In =>
      if s.writer.WRelease? then s.(lock := ReleaseStep(s.lock, WRITER), writer := s.writer.next)
      else
        var (job, page, got) := WriterWork(s.writer, s.page, c);
        s.(writer := job, page := page, accepted := s.accepted + got)
    case _ => s.(lock := AcquireStep(s.lock, WRITER))
  }

  function ReaderStep(s: State, call: ReaderJob, c: Choice): State {
    match s.lock.reader
    case Out =>
      (match s.reader
       case RIdle =>
         if call == RClose || call.RLoadNread? then s.(lock := Goto(s.lock, READER, SetFlag), reader := call) else s
       case RAsleep(n) => s.(lock := Goto(s.lock, READER, SetFlag), reader := RLoadNread(n))
       case RFreePage => s.(reader := RGone, freed := s.freed + 1)
       case _ => s)
    case In =>
      if s.reader.RRelease? then s.(lock := ReleaseStep(s.lock, READER), reader := s.reader.next)
      else
        var (job, page, got) := ReaderWork(s.reader, s.page, c);
        s.(reader := job, page := page, delivered := s.delivered + got)
    case _ => s.(lock := AcquireStep(s.lock, READER))
  }

  function Next(s: State, e: Event): State {
    match e
    case WriterMoves(call, c) => WriterStep(s, call, c)
    case ReaderMoves(call, c) => ReaderStep(s, call, c)
  }

  function Run(s: State, run: seq<Event>): State {
    if run == [] then s else Next(Run(s, run[..|run| - 1]), run[|run| - 1])
  }

  /** The state that pipealloc sets up; the buffer holds whatever kalloc left there. */
  predicate Init(s: State) {
    && s.lock == Lock(false, false, 0, Out, Out)
    && |s.page.data| == PIPESIZE && s.page == Page(s.page.data, 0, 0, true, true)
    && s.writer == WIdle && s.reader == RIdle
    && s.accepted == [] && s.delivered == [] && s.freed == 0
  }

  // ---- which job goes with which phase ----

  predicate WEntry(job: WriterJob) {
    job == WClose || (job.WTest? && job.i >= 0)
  }

  predicate WOut(job: WriterJob) {
    job == WIdle || job == WFreePage || job == WGone || (job.WAsleep? && job.i >= 0)
  }

  predicate WIn(job: WriterJob) {
    match job
    case WIdle => false
    case WAsleep(_, _) => false
    case WFreePage => false
    case WGone => false
    case WRelease(next) => WOut(next)
    case WTest(_, i) => i >= 0
    case WLoadNwrite(src, i) => 0 <= i < |src|
    case WLoadNread(src, i, _) => 0 <= i < |src|
    case WFetch(src, i) => 0 <= i < |src|
    case WPut(src, i, _) => 0 <= i < |src|
    case WBump(src, i, _) => 0 <= i < |src|
    case _ => true
  }

  predicate WriterPhase(p: Phase, job: WriterJob) {
    if p == Out then WOut(job) else if p == In then WIn(job) else WEntry(job)
  }

  predicate ROut(job: ReaderJob) {
    job == RIdle || job == RFreePage || job == RGone || job.RAsleep?
  }

  predicate RIn(job: ReaderJob) {
    if job.RRelease? then ROut(job.next) else !ROut(job)
  }

  predicate ReaderPhase(p: Phase, job: ReaderJob) {
    if p == Out then ROut(job) else if p == In then RIn(job) else job == RClose || job.RLoadNread?
  }

  predicate PhasesOk(s: State) {
    Mutex(s.lock) && WriterPhase(s.lock.writer, s.writer) && ReaderPhase(s.lock.reader, s.reader)
  }

  /** Work under the lock stays under the lock. */
  lemma WriterStaysIn(job: WriterJob, p: Page, c: Choice)
    requires WIn(job) && !job.WRelease?
    ensures WIn(WriterWork(job, p, c).0)
  {
  }

  lemma ReaderStaysIn(job: ReaderJob, p: Page, c: Choice)
    requires RIn(job) && !job.RRelease?
    ensures RIn(ReaderWork(job, p, c).0)
  {
  }

  /** Asking for the lock keeps the exclusion. */
  lemma AskKeepsMutex(l: Lock, id: int)
    requires Mutex(l) && (id == WRITER || id == READER) && PhaseOf(l, id) == Out
    ensures Mutex(Goto(l, id, SetFlag))
  {
  }

  lemma WriterKeepsPhases(s: State, call: WriterJob, c: Choice)
    requires PhasesOk(s)
    ensures PhasesOk(WriterStep(s, call, c))
  {
    if s.lock.writer == In {
      if s.writer.WRelease? {
        ReleaseKeepsMutex(s.lock, WRITER);
      } else {
        WriterStaysIn(s.writer, s.page, c);
      }
    } else if s.lock.writer == Out {
      AskKeepsMutex(s.lock, WRITER);
    } else {
      AcquireKeepsMutex(s.lock, WRITER);
    }
  }

  lemma ReaderKeepsPhases(s: State, call: ReaderJob, c: Choice)
    requires PhasesOk(s)
    ensures PhasesOk(ReaderStep(s, call, c))
  {
    if s.lock.reader == In {
      if s.reader.RRelease? {
        ReleaseKeepsMutex(s.lock, READER);
      } else {
        ReaderStaysIn(s.reader, s.page, c);
      }
    } else if s.lock.reader == Out {
      AskKeepsMutex(s.lock, READER);
    } else {
      AcquireKeepsMutex(s.lock, READER);
    }
  }

  // ---- the life of the page ----

  predicate WClosed(job: WriterJob) {
    job == WLoadRead || job == WLoadWrite || job == WRelease(WGone) || job == WRelease(WFreePage) || job == WFreePage ||
      job == WGone
  }

  predicate RClosed(job: ReaderJob) {
    job == RLoadRead || job == RLoadWrite || job == RRelease(RGone) || job == RRelease(RFreePage) || job == RFreePage ||
      job == RGone
  }

  /** This end will free the page. */
  predicate WFreeing(job: WriterJob) { job == WRelease(WFreePage) || job == WFreePage }
  predicate RFreeing(job: ReaderJob) { job == RRelease(RFreePage) || job == RFreePage }

  /** This end leaves the page to the other one. */
  predicate WLeaving(job: WriterJob) { job == WRelease(WGone) || job == WGone }
  predicate RLeaving(job: ReaderJob) { job == RRelease(RGone) || job == RGone }

  predicate PageLife(p: Page, w: WriterJob, r: ReaderJob, freed: int) {
    && (p.writeopen <==> !WClosed(w))
    && (p.readopen <==> !RClosed(r))
    && (w == WLoadWrite ==> !p.readopen)
    && (freed == 0 || freed == 1)
    && (freed == 1 ==> w == WGone && r == RGone)
    && (freed == 0 ==> !(WLeaving(w) && RLeaving(r)))
    && (WFreeing(w) ==> r == RGone && freed == 0)
    && (RFreeing(r) ==> w == WGone && freed == 0)
  }

  predicate PageOk(s: State) {
    PageLife(s.page, s.writer, s.reader, s.freed)
  }

  /** The writer works while the reader is out or on its way in. */
  lemma WriterWorkKeepsPage(p: Page, w: WriterJob, r: ReaderJob, freed: int, c: Choice)
    requires PageLife(p, w, r, freed) && WIn(w) && !w.WRelease? && (ROut(r) || r == RClose || r.RLoadNread?)
    ensures PageLife(WriterWork(w, p, c).1, WriterWork(w, p, c).0, r, freed)
  {
  }

  lemma ReaderWorkKeepsPage(p: Page, w: WriterJob, r: ReaderJob, freed: int, c: Choice)
    requires PageLife(p, w, r, freed) && RIn(r) && !r.RRelease? && (WOut(w) || WEntry(w))
    ensures PageLife(ReaderWork(r, p, c).1, w, ReaderWork(r, p, c).0, freed)
  {
  }

  lemma WriterKeepsPage(s: State, call: WriterJob, c: Choice)
    requires PhasesOk(s) && PageOk(s)
    ensures PageOk(WriterStep(s, call, c))
  {
    if s.lock.writer == In && !s.writer.WRelease? {
      assert SideOk(s.lock, WRITER) && s.lock.reader != In;
      WriterWorkKeepsPage(s.page, s.writer, s.reader, s.freed, c);
    }
  }

  lemma ReaderKeepsPage(s: State, call: ReaderJob, c: Choice)
    requires PhasesOk(s) && PageOk(s)
    ensures PageOk(ReaderStep(s, call, c))
  {
    if s.lock.reader == In && !s.reader.RRelease? {
      assert SideOk(s.lock, READER) && s.lock.writer != In;
      ReaderWorkKeepsPage(s.page, s.writer, s.reader, s.freed, c);
    }
  }

  // ---- the bytes in the page ----

  /** The byte most recently copied out is not yet counted by nread. */
  function Pending(job: ReaderJob): int {
    if job.CReload? || job.CBump? then 1 else 0
  }

  /** The ring buffer holds the accepted bytes from number `consumed` on, which nread counts. */
  ghost predicate RingOk(p: Page, accepted: seq<int>, consumed: int) {
    && |p.data| == PIPESIZE
    && 0 <= consumed <= |accepted| <= consumed + PIPESIZE
    && p.nwrite == |accepted| % UINT32 && p.nread == consumed % UINT32
    && (forall k :: consumed <= k < |accepted| ==> InRing(p.data, accepted, k))
  }

  predicate InRing(data: seq<int>, accepted: seq<int>, k: int)
    requires |data| == PIPESIZE && 0 <= k < |accepted|
  {
    data[k % PIPESIZE] == accepted[k]
  }

  /** What the writer knows between its loads and stores. */
  ghost predicate WriterKnows(job: WriterJob, p: Page, accepted: seq<int>, consumed: int)
    requires |p.data| == PIPESIZE
  {
    match job
    case WLoadNread(_, _, w) => w == p.nwrite
    case WFetch(_, _) => |accepted| < consumed + PIPESIZE
    case WPut(_, _, w) => |accepted| < consumed + PIPESIZE && w == p.nwrite
    case WBump(src, i, w) => |accepted| < consumed + PIPESIZE && w == p.nwrite && 0 <= i < |src| &&
      p.data[|accepted| % PIPESIZE] == src[i]
    case _ => true
  }

  ghost predicate ReaderKnows(job: ReaderJob, p: Page, accepted: seq<int>, consumed: int)
    requires 0 <= consumed <= |accepted|
  {
    match job
    case CLoadNwrite(_, _, r) => r == p.nread
    case CFetch(_, _) => consumed < |accepted|
    case CByte(_, _, r) => consumed < |accepted| && r == p.nread
    case CCopyOut(_, _, ch) => consumed < |accepted| && ch == accepted[consumed]
    case CReload(_, _) => consumed < |accepted|
    case CBump(_, _, r) => consumed < |accepted| && r == p.nread
    case _ => true
  }

  /** With at most PIPESIZE bytes in the ring, comparing 32-bit counters compares the byte counts, wrapped or not. */
  lemma CountersTell(a: int, c: int)
    requires 0 <= c <= a <= c + PIPESIZE
    ensures a % UINT32 == (c % UINT32 + PIPESIZE) % UINT32 <==> a == c + PIPESIZE
    ensures a % UINT32 == c % UINT32 <==> a == c
    ensures (a % UINT32) % PIPESIZE == a % PIPESIZE
    ensures (a % UINT32 + 1) % UINT32 == (a + 1) % UINT32
  {
    Wraps(a, c);
    WrapsInSlots(a / UINT32, a % UINT32);
    Wraps(a + 1, a);
  }

  /** Counts less than 2^32 apart agree modulo 2^32 only if they are equal. */
  lemma Wraps(a: int, c: int)
    requires 0 <= c <= a <= c + PIPESIZE
    ensures a % UINT32 == if c % UINT32 + (a - c) < UINT32 then c % UINT32 + (a - c) else c % UINT32 + (a - c) - UINT32
  {
    var q, r, n := c / UINT32, c % UINT32, a - c;
    assert c == UINT32 * q + r;
    if r + n < UINT32 {
      Remainder(q, r + n);
    } else {
      Remainder(q + 1, r + n - UINT32);
    }
  }

  lemma Remainder(q: int, r: int)
    requires 0 <= r < UINT32
    ensures (UINT32 * q + r) % UINT32 == r && (UINT32 * q + r) / UINT32 == q
  {
  }

  lemma WrapsInSlots(q: int, r: int)
    ensures (UINT32 * q + r) % PIPESIZE == r % PIPESIZE
  {
    var n, m := r / PIPESIZE, r % PIPESIZE;
    assert UINT32 * q + r == PIPESIZE * (UINT32 / PIPESIZE * q + n) + m;
    SlotRemainder(UINT32 / PIPESIZE * q + n, m);
  }

  lemma SlotRemainder(q: int, r: int)
    requires 0 <= r < PIPESIZE
    ensures (PIPESIZE * q + r) % PIPESIZE == r
  {
  }

  lemma WriterKeepsRing(job: WriterJob, p: Page, c: Choice, accepted: seq<int>, consumed: int)
    requires WIn(job) && !job.WRelease? && RingOk(p, accepted, consumed) && WriterKnows(job, p, accepted, consumed)
    ensures var (job', p', got) := WriterWork(job, p, c);
            RingOk(p', accepted + got, consumed) && WriterKnows(job', p', accepted + got, consumed)
  {
    var (job', p', got) := WriterWork(job, p, c);
    CountersTell(|accepted|, consumed);
    if job.WPut? || job.WBump? {
      forall k | consumed <= k < |accepted|
        ensures InRing(p'.data, accepted + got, k)
      {
        assert InRing(p.data, accepted, k);
        SlotsDiffer(|accepted|, k);
      }
    } else {
      assert accepted + got == accepted;
    }
  }

  lemma SlotsDiffer(a: int, k: int)
    requires a - PIPESIZE < k < a
    ensures k % PIPESIZE != a % PIPESIZE
  {
  }

  lemma ReaderKeepsRing(job: ReaderJob, p: Page, c: Choice, accepted: seq<int>, consumed: int)
    requires RIn(job) && !job.RRelease? && RingOk(p, accepted, consumed) && ReaderKnows(job, p, accepted, consumed)
    ensures var (job', p', got) := ReaderWork(job, p, c);
            var consumed' := if job.CBump? then consumed + 1 else consumed;
            && RingOk(p', accepted, consumed') && ReaderKnows(job', p', accepted, consumed')
            && got == (if Pending(job') > Pending(job) then [accepted[consumed]] else [])
  {
    CountersTell(|accepted|, consumed);
    CountersTell(consumed, consumed);
    if job.CByte? {
      assert InRing(p.data, accepted, consumed);
    }
  }

  // ---- every reachable state ----

  ghost predicate Bytes(p: Page, w: WriterJob, r: ReaderJob, accepted: seq<int>, delivered: seq<int>) {
    var consumed := |delivered| - Pending(r);
    && RingOk(p, accepted, consumed)
    && |delivered| <= |accepted| && delivered == accepted[..|delivered|]
    && WriterKnows(w, p, accepted, consumed) && ReaderKnows(r, p, accepted, consumed)
  }

  ghost predicate BytesOk(s: State) {
    Bytes(s.page, s.writer, s.reader, s.accepted, s.delivered)
  }

  lemma WriterWorkKeepsBytes(p: Page, w: WriterJob, r: ReaderJob, accepted: seq<int>, delivered: seq<int>, c: Choice)
    requires Bytes(p, w, r, accepted, delivered) && WIn(w) && !w.WRelease? && (ROut(r) || r == RClose || r.RLoadNread?)
    ensures var (w', p', got) := WriterWork(w, p, c);
            Bytes(p', w', r, accepted + got, delivered)
  {
    WriterKeepsRing(w, p, c, accepted, |delivered| - Pending(r));
  }

  lemma ReaderWorkKeepsBytes(p: Page, w: WriterJob, r: ReaderJob, accepted: seq<int>, delivered: seq<int>, c: Choice)
    requires Bytes(p, w, r, accepted, delivered) && RIn(r) && !r.RRelease? && (WOut(w) || WEntry(w))
    ensures var (r', p', got) := ReaderWork(r, p, c);
            Bytes(p', w, r', accepted, delivered + got)
  {
    ReaderKeepsRing(r, p, c, accepted, |delivered| - Pending(r));
  }

  ghost predicate Inv(s: State) {
    PhasesOk(s) && PageOk(s) && BytesOk(s)
  }

  lemma WriterKeepsBytes(s: State, call: WriterJob, c: Choice)
    requires PhasesOk(s) && BytesOk(s)
    ensures BytesOk(WriterStep(s, call, c))
  {
    if s.lock.writer == In && !s.writer.WRelease? {
      assert SideOk(s.lock, WRITER) && s.lock.reader != In;
      WriterWorkKeepsBytes(s.page, s.writer, s.reader, s.accepted, s.delivered, c);
    }
  }

  lemma ReaderKeepsBytes(s: State, call: ReaderJob, c: Choice)
    requires PhasesOk(s) && BytesOk(s)
    ensures BytesOk(ReaderStep(s, call, c))
  {
    if s.lock.reader == In && !s.reader.RRelease? {
      assert SideOk(s.lock, READER) && s.lock.writer != In;
      ReaderWorkKeepsBytes(s.page, s.writer, s.reader, s.accepted, s.delivered, c);
    }
  }

  lemma StepKeepsInv(s: State, e: Event)
    requires Inv(s)
    ensures Inv(Next(s, e))
  {
    match e
    case WriterMoves(call, c) =>
      WriterKeepsPhases(s, call, c);
      WriterKeepsPage(s, call, c);
      WriterKeepsBytes(s, call, c);
    case ReaderMoves(call, c) =>
      ReaderKeepsPhases(s, call, c);
      ReaderKeepsPage(s, call, c);
      ReaderKeepsBytes(s, call, c);
  }

  lemma {:induction false} RunKeepsInv(s: State, run: seq<Event>)
    requires Init(s)
    ensures Inv(Run(s, run))
  {
    if run != [] {
      RunKeepsInv(s, run[..|run| - 1]);
      StepKeepsInv(Run(s, run[..|run| - 1]), run[|run| - 1]);
    }
  }

  /** The thread's next step loads from or stores to the page. */
  predicate WriterTouchesPage(s: State) {
    s.lock.writer != Out
  }

  predicate ReaderTouchesPage(s: State) {
    s.lock.reader != Out
  }

  /**
   In every interleaving: the two ends are never both in the critical section; what the reader got is a
   prefix of what the writer put in, and no more than PIPESIZE bytes are in between; the page is
   freed at most once, after which neither thread touches it or can come back to it; and once both
   ends are gone it has been freed.
   */
  lemma PipeIsSafe(s: State, run: seq<Event>)
    requires Init(s)
    ensures var t := Run(s, run);
            && !(t.lock.writer == In && t.lock.reader == In)
            && t.delivered <= t.accepted && |t.accepted| - |t.delivered| <= PIPESIZE
            && 0 <= t.freed <= 1
            && (t.freed == 1 ==>
               !WriterTouchesPage(t) && !ReaderTouchesPage(t) && t.writer == WGone && t.reader == RGone)
            && (t.writer == WGone && t.reader == RGone ==> t.freed == 1)
  {
    RunKeepsInv(s, run);
  }

  /** Both ends gone is a final state. */
  lemma GoneForGood(s: State, e: Event)
    requires Inv(s) && s.writer == WGone && s.reader == RGone
    ensures Next(s, e) == s
  {
  }

  /** The bounds tests that guard the two array accesses never fail, so no step is lost to them. */
  lemma AccessesInBounds(s: State)
    requires Inv(s)
    ensures s.writer.WPut? ==> 0 <= s.writer.i < |s.writer.src| && 0 <= s.writer.w % PIPESIZE < |s.page.data|
    ensures s.writer.WBump? ==> 0 <= s.writer.i < |s.writer.src|
    ensures s.reader.CByte? ==> 0 <= s.reader.r % PIPESIZE < |s.page.data|
  {
  }

  // ---- what can happen ----

  ghost predicate CanReach(s: State, t: State) {
    exists run :: Run(s, run) == t
  }

  lemma Move(s: State, t: State, e: Event) returns (t': State)
    requires CanReach(s, t)
    ensures CanReach(s, t') && t' == Next(t, e)
  {
    var run :| Run(s, run) == t;
    t' := Next(t, e);
    assert (run + [e])[..|run|] == run;
    assert Run(s, run + [e]) == t';
  }

  /** Both ends open and idle. */
  predicate Idle(s: State) {
    && s.lock == Lock(false, false, s.lock.turn, Out, Out) && s.writer == WIdle && s.reader == RIdle
    && s.page.readopen && s.page.writeopen
  }

  /** Between calls the counters tell how many bytes are in the ring. */
  lemma IdleCounters(s: State, t: State)
    requires Init(s) && CanReach(s, t) && Idle(t)
    ensures |t.page.data| == PIPESIZE && t.delivered <= t.accepted
    ensures t.page.nread == t.page.nwrite <==> |t.accepted| == |t.delivered|
    ensures t.page.nwrite == (t.page.nread + PIPESIZE) % UINT32 <==> |t.accepted| == |t.delivered| + PIPESIZE
  {
    var run :| Run(s, run) == t;
    RunKeepsInv(s, run);
    CountersTell(|t.accepted|, |t.delivered|);
  }

  const GO := Choice(false, false)

  /** A step of the writer under the lock, */
  lemma WriterWorks(s: State, t: State, job: WriterJob, page: Page, got: seq<int>) returns (t': State)
    requires CanReach(s, t) && t.lock.writer == In && !t.writer.WRelease? &&
             WriterWork(t.writer, t.page, GO) == (job, page, got)
    ensures CanReach(s, t') && t' == t.(writer := job, page := page, accepted := t.accepted + got)
  {
    t' := Move(s, t, WriterMoves(WIdle, GO));
  }

  /** and one that touches neither page nor bytes. */
  lemma WriterLooks(s: State, t: State, job: WriterJob) returns (t': State)
    requires CanReach(s, t) && t.lock.writer == In && !t.writer.WRelease? &&
             WriterWork(t.writer, t.page, GO) == (job, t.page, [])
    ensures CanReach(s, t') && t' == t.(writer := job)
  {
    t' := WriterWorks(s, t, job, t.page, []);
    assert t.accepted + [] == t.accepted;
  }

  lemma ReaderWorks(s: State, t: State, job: ReaderJob, page: Page, got: seq<int>) returns (t': State)
    requires CanReach(s, t) && t.lock.reader == In && !t.reader.RRelease? &&
             ReaderWork(t.reader, t.page, GO) == (job, page, got)
    ensures CanReach(s, t') && t' == t.(reader := job, page := page, delivered := t.delivered + got)
  {
    t' := Move(s, t, ReaderMoves(RIdle, GO));
  }

  lemma ReaderLooks(s: State, t: State, job: ReaderJob) returns (t': State)
    requires CanReach(s, t) && t.lock.reader == In && !t.reader.RRelease? &&
             ReaderWork(t.reader, t.page, GO) == (job, t.page, [])
    ensures CanReach(s, t') && t' == t.(reader := job)
  {
    t' := ReaderWorks(s, t, job, t.page, []);
    assert t.delivered + [] == t.delivered;
  }

  /** Undisturbed, the writer gets into the critical section. */
  lemma WriterEnters(s: State, t: State, src: seq<int>) returns (t': State)
    requires CanReach(s, t) && Idle(t)
    ensures CanReach(s, t') && t' == t.(lock := Lock(true, false, 1, In, Out), writer := WTest(src, 0))
  {
    t' := Move(s, t, WriterMoves(WTest(src, 0), GO));
    t' := Move(s, t', WriterMoves(WIdle, GO));
    t' := Move(s, t', WriterMoves(WIdle, GO));
    t' := Move(s, t', WriterMoves(WIdle, GO));
  }

  /** There it reads nwrite and nread, */
  lemma WriterTests(s: State, t: State, src: seq<int>, i: int) returns (t': State)
    requires CanReach(s, t) && t.lock.writer == In && t.writer == WTest(src, i) && i < |src| && t.page.readopen
    ensures CanReach(s, t') && t' == t.(writer := WLoadNread(src, i, t.page.nwrite))
  {
    t' := WriterLooks(s, t, WLoadNwrite(src, i));
    t' := WriterLooks(s, t', WLoadNread(src, i, t.page.nwrite));
  }

  /** finds room, */
  lemma WriterFindsRoom(s: State, t: State, src: seq<int>, i: int) returns (t': State)
    requires CanReach(s, t) && t.lock.writer == In && t.writer == WLoadNread(src, i, t.page.nwrite)
    requires t.page.nwrite != (t.page.nread + PIPESIZE) % UINT32
    ensures CanReach(s, t') && t' == t.(writer := WFetch(src, i))
  {
    t' := WriterLooks(s, t, WFetch(src, i));
  }

  /** puts in the byte, */
  lemma WriterStores(s: State, t: State, src: seq<int>, i: int) returns (t': State)
    requires CanReach(s, t) && t.lock.writer == In && t.writer == WFetch(src, i) && 0 <= i < |src| &&
             |t.page.data| == PIPESIZE
    ensures CanReach(s, t') && t' == t.(writer := WBump(src, i, t.page.nwrite), page := t'.page)
    ensures t'.page == t.page.(data := t'.page.data)
  {
    var w := t.page.nwrite;
    t' := WriterLooks(s, t, WPut(src, i, w));
    t' := WriterWorks(s, t', WBump(src, i, w), t.page.(data := t.page.data[w % PIPESIZE := src[i]]), []);
    assert t.accepted + [] == t.accepted;
  }

  /** counts it */
  lemma WriterCounts(s: State, t: State, src: seq<int>, i: int, w: int) returns (t': State)
    requires CanReach(s, t) && t.lock.writer == In && t.writer == WBump(src, i, w) && 0 <= i < |src|
    ensures CanReach(s, t') && t' == t.(writer := WTest(src, i + 1), page := t'.page, accepted := t.accepted + [src[i]])
    ensures t'.page == t.page.(nwrite := t'.page.nwrite)
  {
    t' := WriterWorks(s, t, WTest(src, i + 1), t.page.(nwrite := (w + 1) % UINT32), [src[i]]);
  }

  /** and leaves. */
  lemma WriterLeaves(s: State, t: State, src: seq<int>) returns (t': State)
    requires CanReach(s, t) && t.lock == Lock(true, false, 1, In, Out) && t.writer == WTest(src, |src|)
    ensures CanReach(s, t') && t' == t.(lock := Lock(false, false, 1, Out, Out), writer := WIdle)
  {
    t' := WriterLooks(s, t, WRelease(WIdle));
    t' := Move(s, t', WriterMoves(WIdle, GO));
  }

  lemma ReaderEnters(s: State, t: State, n: int) returns (t': State)
    requires CanReach(s, t) && Idle(t)
    ensures CanReach(s, t') && t' == t.(lock := Lock(false, true, 0, Out, In), reader := RLoadNread(n))
  {
    t' := Move(s, t, ReaderMoves(RLoadNread(n), GO));
    t' := Move(s, t', ReaderMoves(RIdle, GO));
    t' := Move(s, t', ReaderMoves(RIdle, GO));
    t' := Move(s, t', ReaderMoves(RIdle, GO));
  }

  /** The reader finds the pipe not empty, */
  lemma ReaderFindsByte(s: State, t: State) returns (t': State)
    requires CanReach(s, t) && t.lock.reader == In && t.reader == RLoadNread(1) && t.page.nread != t.page.nwrite
    ensures CanReach(s, t') && t' == t.(reader := CFetch(1, 0))
  {
    t' := ReaderLooks(s, t, RLoadNwrite(1, t.page.nread));
    t' := ReaderLooks(s, t', CLoadNread(1, 0));
    t' := ReaderLooks(s, t', CLoadNwrite(1, 0, t.page.nread));
    t' := ReaderLooks(s, t', CFetch(1, 0));
  }

  /** copies a byte out, */
  lemma ReaderCopies(s: State, t: State) returns (t': State)
    requires CanReach(s, t) && t.lock.reader == In && t.reader == CFetch(1, 0) && |t.page.data| == PIPESIZE
    ensures CanReach(s, t') && |t'.delivered| == |t.delivered| + 1
    ensures t' == t.(reader := CReload(1, 0), delivered := t'.delivered)
  {
    var r := t.page.nread;
    var ch := t.page.data[r % PIPESIZE];
    t' := ReaderLooks(s, t, CByte(1, 0, r));
    t' := ReaderLooks(s, t', CCopyOut(1, 0, ch));
    t' := ReaderWorks(s, t', CReload(1, 0), t.page, [ch]);
  }

  /** counts it */
  lemma ReaderCounts(s: State, t: State) returns (t': State)
    requires CanReach(s, t) && t.lock.reader == In && t.reader == CReload(1, 0)
    ensures CanReach(s, t') && t' == t.(reader := RRelease(RIdle), page := t'.page)
    ensures t'.page.readopen == t.page.readopen && t'.page.writeopen == t.page.writeopen
  {
    var counted := t.page.(nread := (t.page.nread + 1) % UINT32);
    t' := ReaderLooks(s, t, CBump(1, 0, t.page.nread));
    t' := ReaderWorks(s, t', CLoadNread(1, 1), counted, []);
    t' := ReaderLooks(s, t', RRelease(RIdle));
  }

  /** and leaves. */
  lemma ReaderLeaves(s: State, t: State) returns (t': State)
    requires CanReach(s, t) && t.lock == Lock(false, true, 0, Out, In) && t.reader == RRelease(RIdle)
    ensures CanReach(s, t') && t' == t.(lock := Lock(false, false, 0, Out, Out), reader := RIdle)
  {
    t' := Move(s, t, ReaderMoves(RIdle, GO));
  }

  lemma WriterPuts(s: State, t: State, b: int) returns (t': State)
    requires Init(s) && CanReach(s, t) && Idle(t) && t.delivered == t.accepted
    ensures CanReach(s, t') && Idle(t') && t'.delivered == t.delivered && t'.accepted == t.accepted + [b]
  {
    IdleCounters(s, t);
    t' := WriterEnters(s, t, [b]);
    t' := WriterTests(s, t', [b], 0);
    t' := WriterFindsRoom(s, t', [b], 0);
    t' := WriterStores(s, t', [b], 0);
    t' := WriterCounts(s, t', [b], 0, t'.writer.w);
    t' := WriterLeaves(s, t', [b]);
  }

  lemma ReaderTakes(s: State, t: State) returns (t': State)
    requires Init(s) && CanReach(s, t) && Idle(t) && |t.accepted| == |t.delivered| + 1
    ensures CanReach(s, t') && Idle(t') && t'.accepted == t.accepted && t'.delivered == t.accepted
  {
    IdleCounters(s, t);
    t' := ReaderEnters(s, t, 1);
    t' := ReaderFindsByte(s, t');
    t' := ReaderCopies(s, t');
    t' := ReaderCounts(s, t');
    t' := ReaderLeaves(s, t');
    IdleCounters(s, t');
  }

  /** Nothing in the protocol keeps bytes back: every message, however long, can be delivered in full. */
  lemma {:induction false} AllCanBeDelivered(s: State, src: seq<int>) returns (t: State)
    requires Init(s)
    ensures CanReach(s, t) && Idle(t) && t.accepted == src && t.delivered == src
    decreases |src|
  {
    if src == [] {
      assert Run(s, []) == s;
      t := s;
    } else {
      var n := |src| - 1;
      t := AllCanBeDelivered(s, src[..n]);
      t := WriterPuts(s, t, src[n]);
      assert t.accepted == src;
      t := ReaderTakes(s, t);
    }
  }
}
