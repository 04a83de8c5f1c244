/**
 Any number of transactions one after the other, with a crash after any of the block writes they make: what
 recovery leaves on the disk is the work of the transactions whose header write had reached it.
 */
module CrashHistory {
  import opened Collections
  import opened CrashLog

  /** The blocks a transaction changes, and their new contents. */
  datatype Tx = Tx(blocks: seq<int>, data: seq<Block>)

  function WritesOf(d: Disk, start: int, t: Tx): seq<Write>
    requires Transaction(d, start, t.blocks, t.data)
  {
    CommitWrites(start, d[start], t.blocks, t.data)
  }

  /** The disk after all writes of a commit. */
  function Complete(d: Disk, start: int, t: Tx): (r: Disk)
    requires Transaction(d, start, t.blocks, t.data)
    ensures |r| == |d|
  {
    CrashedCommit(d, start, t.blocks, t.data, |WritesOf(d, start, t)|)
  }

  lemma {:induction false} CompleteCommit(d: Disk, start: int, t: Tx)
    requires Transaction(d, start, t.blocks, t.data)
    ensures var d' := Complete(d, start, t);
            && LogOk(d', start) && d'[start][0] == 0
            && (forall b :: 0 <= b < |d| && !InLog(start, b) ==> d'[b] == Updated(d, t.blocks, t.data, b))
  {
    var k := |WritesOf(d, start, t)|;
    if t.blocks != [] {
      var d1 := LateCrashIsRecovery(d, start, t.blocks, t.data, k);
      CommittedHome(d, d1, start, t.blocks, t.data);
      RecoveryKeepsHome(d1, start, k - |t.data| - 1);
      LateCrash(d, start, t.blocks, t.data, k);
      assert HeaderBlocks(Complete(d, start, t)[start]) == [];
    }
  }

  // ---- one transaction after the other ----

  predicate EmptyLog(d: Disk, start: int) {
    LogOk(d, start) && d[start][0] == 0
  }

  /** The disk after the given transactions. */
  ghost function DiskAfter(d: Disk, start: int, txs: seq<Tx>): (r: Disk)
    ensures |r| == |d|
    decreases |txs|
  {
    if txs == [] then d
    else
      var m, t := DiskAfter(d, start, txs[..|txs| - 1]), txs[|txs| - 1];
      if Transaction(m, start, t.blocks, t.data) then Complete(m, start, t) else m
  }

  /** Each transaction is one on the disk that the ones before it leave. */
  ghost predicate Serial(d: Disk, start: int, txs: seq<Tx>)
    decreases |txs|
  {
    txs != [] ==>
      var front, t := txs[..|txs| - 1], txs[|txs| - 1];
      Serial(d, start, front) && Transaction(DiskAfter(d, start, front), start, t.blocks, t.data)
  }

  /** All block writes of the given transactions, in order. */
  ghost function Trace(d: Disk, start: int, txs: seq<Tx>): seq<Write>
    requires Serial(d, start, txs)
    decreases |txs|
  {
    if txs == [] then []
    else
      var front := txs[..|txs| - 1];
      Trace(d, start, front) + WritesOf(DiskAfter(d, start, front), start, txs[|txs| - 1])
  }

  lemma {:induction false} TraceReaches(d: Disk, start: int, txs: seq<Tx>)
    requires EmptyLog(d, start) && Serial(d, start, txs)
    ensures InRange(d, Trace(d, start, txs)) &&
            After(d, Trace(d, start, txs), |Trace(d, start, txs)|) == DiskAfter(d, start, txs)
    ensures EmptyLog(DiskAfter(d, start, txs), start)
    decreases |txs|
  {
    if txs != [] {
      var front, t := txs[..|txs| - 1], txs[|txs| - 1];
      var m := DiskAfter(d, start, front);
      TraceReaches(d, start, front);
      CompleteCommit(m, start, t);
      CommitInRange(m, start, t.blocks, t.data);
      AfterBoth(d, Trace(d, start, front), WritesOf(m, start, t), Trace(d, start, txs), |Trace(d, start, txs)|);
    }
  }

  /** What home block b holds after the first n transactions: what the last of them that changed it put there. */
  ghost function Contents(d: Disk, txs: seq<Tx>, n: int, b: int): Block
    requires 0 <= n <= |txs| && 0 <= b < |d|
    decreases n
  {
    if n <= 0 then d[b]
    else
      var t := txs[n - 1];
      if b in t.blocks && |t.data| == |t.blocks| then t.data[IndexOf(t.blocks, b)] else Contents(d, txs, n - 1, b)
  }

  lemma {:induction false} ContentsPrefix(d: Disk, txs: seq<Tx>, m: int, n: int, b: int)
    requires 0 <= n <= m <= |txs| && 0 <= b < |d|
    ensures Contents(d, txs[..m], n, b) == Contents(d, txs, n, b)
    decreases n
  {
    if n > 0 {
      ContentsPrefix(d, txs, m, n - 1, b);
    }
  }

  lemma {:induction false} DiskHasContents(d: Disk, start: int, txs: seq<Tx>, b: int)
    requires EmptyLog(d, start) && Serial(d, start, txs) && 0 <= b < |d| && !InLog(start, b)
    ensures DiskAfter(d, start, txs)[b] == Contents(d, txs, |txs|, b)
    decreases |txs|
  {
    if txs != [] {
      var n := |txs| - 1;
      DiskHasContents(d, start, txs[..n], b);
      ContentsPrefix(d, txs, n, n, b);
      CompleteCommit(DiskAfter(d, start, txs[..n]), start, txs[n]);
    }
  }

  /** How many transactions have their header write among the first k writes. */
  ghost function CommittedBy(d: Disk, start: int, txs: seq<Tx>, k: int): (n: int)
    requires Serial(d, start, txs)
    ensures 0 <= n <= |txs|
    decreases |txs|
  {
    if txs == [] then 0
    else
      var front := txs[..|txs| - 1];
      var before := |Trace(d, start, front)|;
      if k <= before then CommittedBy(d, start, front, k)
      else if k - before > |txs[|txs| - 1].blocks| then |txs| else |txs| - 1
  }

  /**
   From disk c, boots cut short as given end with an empty log and every home block as after the first n transactions.
   */
  ghost predicate RecoversTo(c: Disk, start: int, crashes: seq<int>, d: Disk, txs: seq<Tx>, n: int)
    requires 0 <= n <= |txs|
  {
    && |c| == |d| && LogOk(c, start)
    && var r := Boots(c, start, crashes);
       EmptyLog(r, start) && forall b :: 0 <= b < |d| && !InLog(start, b) ==> r[b] == Contents(d, txs, n, b)
  }

  /**
   A crash anywhere. Take any transactions one after the other, the first k of their block writes, and any number of
   crashes of the recoveries that follow: every home block ends with the contents it has after exactly the transactions
   whose header write is among those k, and the log is empty.
   */
  lemma {:induction false} CrashAnywhere(d: Disk, start: int, txs: seq<Tx>, k: int, crashes: seq<int>)
    requires EmptyLog(d, start) && Serial(d, start, txs) && 0 <= k <= |Trace(d, start, txs)|
    ensures InRange(d, Trace(d, start, txs))
    ensures RecoversTo(After(d, Trace(d, start, txs), k), start, crashes, d, txs, CommittedBy(d, start, txs, k))
    decreases |txs|
  {
    TraceReaches(d, start, txs);
    if txs == [] {
      BootsReachHome(d, start, crashes);
      assert HeaderBlocks(d[start]) == [];
    } else {
      var n := |txs| - 1;
      var front, t := txs[..n], txs[n];
      var m, before := DiskAfter(d, start, front), Trace(d, start, front);
      TraceReaches(d, start, front);
      CommitInRange(m, start, t.blocks, t.data);
      if k <= |before| {
        CrashAnywhere(d, start, front, k, crashes);
        AfterPrefix(d, before, WritesOf(m, start, t), k);
        var c := CommittedBy(d, start, front, k);
        forall b | 0 <= b < |d|
          ensures Contents(d, front, c, b) == Contents(d, txs, c, b)
        {
          ContentsPrefix(d, txs, n, c, b);
        }
      } else {
        AfterBoth(d, before, WritesOf(m, start, t), Trace(d, start, txs), k);
        CrashInLast(d, start, txs, k - |before|, crashes);
      }
    }
  }

  lemma {:induction false} StillRecovers(c: Disk, c': Disk, start: int, crashes: seq<int>, d: Disk, txs: seq<Tx>,
                                         n: int)
    requires 0 <= n <= |txs| && c == c' && RecoversTo(c, start, crashes, d, txs, n)
    ensures RecoversTo(c', start, crashes, d, txs, n)
  {
  }

  /**
   The same for a device that made other writes before: boot is the disk at first, clean the disk after those writes.
   */
  lemma {:induction false} CrashSince(boot: Disk, base: seq<Write>, clean: Disk, start: int, txs: seq<Tx>,
                                      trace: seq<Write>, k: int, crashes: seq<int>)
    requires InRange(boot, base) && clean == After(boot, base, |base|)
    requires EmptyLog(clean, start) && Serial(clean, start, txs)
    requires trace == base + Trace(clean, start, txs) && |base| <= k <= |trace|
    ensures InRange(boot, trace)
    ensures RecoversTo(After(boot, trace, k), start, crashes, clean, txs, CommittedBy(clean, start, txs, k - |base|))
  {
    var ws, n := Trace(clean, start, txs), CommittedBy(clean, start, txs, k - |base|);
    CrashAnywhere(clean, start, txs, k - |base|, crashes);
    AfterBoth(boot, base, ws, trace, k);
    StillRecovers(After(clean, ws, k - |base|), After(boot, trace, k), start, crashes, clean, txs, n);
  }

  /** The crash is in the commit of the last transaction. */
  lemma {:induction false} CrashInLast(d: Disk, start: int, txs: seq<Tx>, k: int, crashes: seq<int>)
    requires EmptyLog(d, start) && txs != [] && Serial(d, start, txs)
    requires 0 < k <= |WritesOf(DiskAfter(d, start, txs[..|txs| - 1]), start, txs[|txs| - 1])|
    ensures var m, t := DiskAfter(d, start, txs[..|txs| - 1]), txs[|txs| - 1];
            RecoversTo(CrashedCommit(m, start, t.blocks, t.data, k), start, crashes, d, txs,
              if k > |t.blocks| then |txs| else |txs| - 1)
  {
    var n := |txs| - 1;
    var m, t := DiskAfter(d, start, txs[..n]), txs[n];
    CrashAtomic(m, start, t.blocks, t.data, k, crashes);
    forall b | 0 <= b < |d| && !InLog(start, b)
      ensures m[b] == Contents(d, txs, n, b) && Updated(m, t.blocks, t.data, b) == Contents(d, txs, n + 1, b)
    {
      DiskHasContents(d, start, txs[..n], b);
      ContentsPrefix(d, txs, n, n, b);
    }
  }
}
