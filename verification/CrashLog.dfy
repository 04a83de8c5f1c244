/**
 The redo log: commit and recovery as sequences of whole-block writes, with a crash possible between
 any two of them, in commit as well as in any later recovery.
 */
module CrashLog {
  import opened Collections
  import opened Params

  const BWORDS := 256  // 32-bit words in a block

  /** The contents of a block; those of the header block are its 32-bit words. */
  type Block = seq<int>

  type Disk = seq<Block>

  /** One whole-block write that has reached the disk. */
  datatype Write = Write(bn: int, data: Block)

  predicate InRange(d: Disk, ws: seq<Write>) {
    forall i :: 0 <= i < |ws| ==> 0 <= ws[i].bn < |d|
  }

  /** The disk after the first k of the given writes. */
  function After(d: Disk, ws: seq<Write>, k: int): (r: Disk)
    requires InRange(d, ws) && 0 <= k <= |ws|
    ensures |r| == |d|
    decreases k
  {
    if k == 0 then d else After(d, ws, k - 1)[ws[k - 1].bn := ws[k - 1].data]
  }

  lemma {:induction false} AfterPrefix(d: Disk, a: seq<Write>, b: seq<Write>, k: int)
    requires InRange(d, a) && InRange(d, b) && 0 <= k <= |a|
    ensures InRange(d, a + b) && After(d, a + b, k) == After(d, a, k)
    decreases k
  {
    if k > 0 {
      AfterPrefix(d, a, b, k - 1);
    }
  }

  lemma {:induction false} AfterSuffix(d: Disk, a: seq<Write>, b: seq<Write>, k: int)
    requires InRange(d, a) && InRange(d, b) && 0 <= k <= |b|
    ensures InRange(d, a + b) && After(d, a + b, |a| + k) == After(After(d, a, |a|), b, k)
    decreases k
  {
    if k == 0 {
      AfterPrefix(d, a, b, |a|);
    } else {
      AfterSuffix(d, a, b, k - 1);
    }
  }

  lemma {:induction false} AfterBoth(d: Disk, a: seq<Write>, b: seq<Write>, ws: seq<Write>, k: int)
    requires InRange(d, a) && InRange(d, b) && ws == a + b && |a| <= k <= |ws|
    ensures InRange(d, ws) && After(d, ws, k) == After(After(d, a, |a|), b, k - |a|)
  {
    AfterSuffix(d, a, b, k - |a|);
  }

  // ---- the on-disk log ----

  /** The header block and the log blocks after it. */
  predicate InLog(start: int, b: int) {
    start <= b <= start + LOGBLOCKS
  }

  /** What write_head leaves in the header block: the count, the block numbers, and stale words after them. */
  function WithHeader(hb: Block, blocks: seq<int>): Block
    requires |blocks| < |hb|
  {
    [|blocks|] + blocks + hb[1 + |blocks|..]
  }

  function HeaderBlocks(hb: Block): seq<int>
    requires |hb| > 0 && 0 <= hb[0] < |hb|
  {
    hb[1..1 + hb[0]]
  }

  lemma HeaderRoundTrip(hb: Block, blocks: seq<int>)
    requires |blocks| < |hb|
    ensures |WithHeader(hb, blocks)| == |hb| && WithHeader(hb, blocks)[0] == |blocks| &&
            HeaderBlocks(WithHeader(hb, blocks)) == blocks
  {
  }

  /** Distinct block numbers outside the log, as many as the log has room for. */
  predicate Loggable(size: int, start: int, blocks: seq<int>) {
    && |blocks| <= LOGBLOCKS && Distinct(blocks)
    && (forall i :: 0 <= i < |blocks| ==> !InLog(start, blocks[i]) && 0 <= blocks[i] < size)
  }

  predicate LogOk(d: Disk, start: int) {
    && 0 <= start && start + LOGBLOCKS < |d|
    && |d[start]| == BWORDS && 0 <= d[start][0] <= LOGBLOCKS
    && Loggable(|d|, start, HeaderBlocks(d[start]))
  }

  /** The contents that home block b will have once the log is installed. */
  function Home(d: Disk, start: int, b: int): Block
    requires LogOk(d, start) && 0 <= b < |d|
  {
    var blocks := HeaderBlocks(d[start]);
    if b in blocks then d[start + 1 + IndexOf(blocks, b)] else d[b]
  }

  // ---- the writes of commit and recovery ----

  function LogWrites(start: int, data: seq<Block>): seq<Write> {
    seq(|data|, i requires 0 <= i < |data| => Write(start + 1 + i, data[i]))
  }

  function HomeWrites(blocks: seq<int>, data: seq<Block>): seq<Write>
    requires |blocks| == |data|
  {
    seq(|data|, i requires 0 <= i < |data| => Write(blocks[i], data[i]))
  }

  /** install_trans followed by write_head of the empty log. */
  function RedoWrites(start: int, hb: Block, blocks: seq<int>, data: seq<Block>): seq<Write>
    requires |blocks| == |data| && |hb| > 0
  {
    HomeWrites(blocks, data) + [Write(start, WithHeader(hb, []))]
  }

  /** write_log followed by write_head. */
  function ReadyWrites(start: int, hb: Block, blocks: seq<int>, data: seq<Block>): seq<Write>
    requires |blocks| == |data| < |hb|
  {
    LogWrites(start, data) + [Write(start, WithHeader(hb, blocks))]
  }

  /** All writes of commit, given the old contents of the header block. */
  function CommitWrites(start: int, hb: Block, blocks: seq<int>, data: seq<Block>): seq<Write>
    requires |blocks| == |data| < |hb|
  {
    if blocks == [] then []
    else ReadyWrites(start, hb, blocks, data) + RedoWrites(start, WithHeader(hb, blocks), blocks, data)
  }

  function LogData(d: Disk, start: int): seq<Block>
    requires LogOk(d, start)
  {
    d[start + 1..start + 1 + d[start][0]]
  }

  /** All writes of recover_from_log. */
  function RecoverWrites(d: Disk, start: int): seq<Write>
    requires LogOk(d, start)
  {
    RedoWrites(start, d[start], HeaderBlocks(d[start]), LogData(d, start))
  }

  // ---- the disk part of the way through ----

  /** After k log writes exactly the first k log blocks have changed. */
  lemma {:induction false} AfterLogWrites(d: Disk, start: int, data: seq<Block>, k: int, b: int)
    requires 0 <= k <= |data| && 0 <= start && start + |data| < |d| && 0 <= b < |d|
    ensures InRange(d, LogWrites(start, data))
    ensures After(d, LogWrites(start, data), k)[b] == if start < b <= start + k then data[b - start - 1] else d[b]
    decreases k
  {
    if k > 0 {
      AfterLogWrites(d, start, data, k - 1, b);
    }
  }

  /** After k home writes exactly the first k blocks have their new contents. */
  lemma {:induction false} AfterHomeWrites(d: Disk, blocks: seq<int>, data: seq<Block>, k: int, b: int)
    requires |blocks| == |data| && 0 <= k <= |data| && Distinct(blocks) && 0 <= b < |d|
    requires forall i :: 0 <= i < |blocks| ==> 0 <= blocks[i] < |d|
    ensures InRange(d, HomeWrites(blocks, data))
    ensures (forall i :: 0 <= i < k ==> blocks[i] != b) ==> After(d, HomeWrites(blocks, data), k)[b] == d[b]
    ensures forall i :: 0 <= i < k && blocks[i] == b ==> After(d, HomeWrites(blocks, data), k)[b] == data[i]
    decreases k
  {
    if k > 0 {
      AfterHomeWrites(d, blocks, data, k - 1, b);
    }
  }

  lemma {:induction false} LogUntouched(d: Disk, start: int, blocks: seq<int>, data: seq<Block>, k: int, b: int)
    requires Loggable(|d|, start, blocks) && |blocks| == |data| && 0 <= k <= |data| && 0 <= b < |d| && InLog(start, b)
    ensures InRange(d, HomeWrites(blocks, data)) && After(d, HomeWrites(blocks, data), k)[b] == d[b]
  {
    AfterHomeWrites(d, blocks, data, k, b);
  }

  /** Installing any part of a committed log changes neither the log nor what will be installed. */
  lemma {:induction false} InstallKeepsHome(d: Disk, start: int, blocks: seq<int>, data: seq<Block>, k: int)
    requires LogOk(d, start) && blocks == HeaderBlocks(d[start]) && data == LogData(d, start) && 0 <= k <= |blocks|
    ensures InRange(d, HomeWrites(blocks, data))
    ensures var d' := After(d, HomeWrites(blocks, data), k);
            && d'[start] == d[start] && LogOk(d', start)
            && (forall b :: 0 <= b < |d| && !InLog(start, b) ==> Home(d', start, b) == Home(d, start, b))
  {
    LogUntouched(d, start, blocks, data, k, start);
    var d' := After(d, HomeWrites(blocks, data), k);
    forall b | 0 <= b < |d| && !InLog(start, b)
      ensures Home(d', start, b) == Home(d, start, b)
    {
      if b in blocks {
        LogUntouched(d, start, blocks, data, k, start + 1 + IndexOf(blocks, b));
      } else {
        AfterHomeWrites(d, blocks, data, k, b);
      }
    }
  }

  /** Once all of a committed log is installed, every home block has the contents it was to get. */
  lemma {:induction false} InstallReachesHome(d: Disk, start: int, blocks: seq<int>, data: seq<Block>, b: int)
    requires LogOk(d, start) && blocks == HeaderBlocks(d[start]) && data == LogData(d, start) && 0 <= b < |d|
    ensures InRange(d, HomeWrites(blocks, data)) && After(d, HomeWrites(blocks, data), |data|)[b] == Home(d, start, b)
  {
    if b in blocks {
      var i := IndexOf(blocks, b);
      Installed(d, blocks, data, i);
      LogDataAt(d, start, i);
    } else {
      AfterHomeWrites(d, blocks, data, |data|, b);
    }
  }

  lemma LogDataAt(d: Disk, start: int, i: int)
    requires LogOk(d, start) && 0 <= i < d[start][0]
    ensures |LogData(d, start)| == d[start][0] && LogData(d, start)[i] == d[start + 1 + i]
  {
  }

  lemma {:induction false} Installed(d: Disk, blocks: seq<int>, data: seq<Block>, i: int)
    requires |blocks| == |data| && 0 <= i < |data| && Distinct(blocks)
    requires forall j :: 0 <= j < |blocks| ==> 0 <= blocks[j] < |d|
    ensures InRange(d, HomeWrites(blocks, data)) && After(d, HomeWrites(blocks, data), |data|)[blocks[i]] == data[i]
  {
    AfterHomeWrites(d, blocks, data, |data|, blocks[i]);
  }

  lemma RecoverInRange(d: Disk, start: int)
    requires LogOk(d, start)
    ensures |RecoverWrites(d, start)| == d[start][0] + 1 && InRange(d, RecoverWrites(d, start))
  {
  }

  /** The disk when the machine goes down after k writes of a recovery. */
  function CrashedRecovery(d: Disk, start: int, k: int): (r: Disk)
    requires LogOk(d, start) && 0 <= k <= d[start][0] + 1
    ensures |r| == |d|
  {
    RecoverInRange(d, start);
    After(d, RecoverWrites(d, start), k)
  }

  lemma {:induction false} RecoveryKeepsHome(d: Disk, start: int, k: int)
    requires LogOk(d, start) && 0 <= k <= d[start][0] + 1
    ensures var d' := CrashedRecovery(d, start, k);
            && LogOk(d', start)
            && (forall b :: 0 <= b < |d| && !InLog(start, b) ==> Home(d', start, b) == Home(d, start, b))
            && (k == d[start][0] + 1 ==> d'[start][0] == 0)
  {
    RecoverInRange(d, start);
    var n := d[start][0];
    var blocks, data := HeaderBlocks(d[start]), LogData(d, start);
    var ws, clear := HomeWrites(blocks, data), [Write(start, WithHeader(d[start], []))];
    if k <= n {
      InstallKeepsHome(d, start, blocks, data, k);
      AfterPrefix(d, ws, clear, k);
    } else {
      LogUntouched(d, start, blocks, data, n, start);
      AfterSuffix(d, ws, clear, 1);
      HeaderRoundTrip(d[start], []);
      forall b | 0 <= b < |d| && !InLog(start, b)
        ensures After(d, ws, n)[b] == Home(d, start, b)
      {
        InstallReachesHome(d, start, blocks, data, b);
      }
    }
  }

  /** Boots that each crash after the given number of recovery writes, and a last one that recovers fully. */
  function Boots(d: Disk, start: int, crashes: seq<int>): (r: Disk)
    requires LogOk(d, start)
    ensures |r| == |d|
    decreases |crashes|
  {
    var all := d[start][0] + 1;
    if crashes == [] then CrashedRecovery(d, start, all)
    else
      var k := if crashes[0] < 0 then 0 else if crashes[0] > all then all else crashes[0];
      RecoveryKeepsHome(d, start, k);
      Boots(CrashedRecovery(d, start, k), start, crashes[1..])
  }

  /** However often recovery is interrupted, it ends with every home block installed and an empty log. */
  lemma {:induction false} BootsReachHome(d: Disk, start: int, crashes: seq<int>)
    requires LogOk(d, start)
    ensures var r := Boots(d, start, crashes);
            && LogOk(r, start) && r[start][0] == 0
            && (forall b :: 0 <= b < |d| && !InLog(start, b) ==> r[b] == Home(d, start, b))
    decreases |crashes|
  {
    var all := d[start][0] + 1;
    if crashes == [] {
      RecoveryKeepsHome(d, start, all);
    } else {
      var k := if crashes[0] < 0 then 0 else if crashes[0] > all then all else crashes[0];
      RecoveryKeepsHome(d, start, k);
      BootsReachHome(CrashedRecovery(d, start, k), start, crashes[1..]);
    }
  }

  // ---- commit ----

  /** A transaction: new contents for some home blocks, on a disk whose log is empty. */
  predicate Transaction(d: Disk, start: int, blocks: seq<int>, data: seq<Block>) {
    LogOk(d, start) && d[start][0] == 0 && Loggable(|d|, start, blocks) && |data| == |blocks|
  }

  /** The contents of block b after the transaction. */
  function Updated(d: Disk, blocks: seq<int>, data: seq<Block>, b: int): Block
    requires |data| == |blocks| && 0 <= b < |d|
  {
    if b in blocks then data[IndexOf(blocks, b)] else d[b]
  }

  lemma CommitInRange(d: Disk, start: int, blocks: seq<int>, data: seq<Block>)
    requires Transaction(d, start, blocks, data)
    ensures InRange(d, ReadyWrites(start, d[start], blocks, data))
    ensures InRange(d, RedoWrites(start, WithHeader(d[start], blocks), blocks, data))
    ensures InRange(d, CommitWrites(start, d[start], blocks, data))
  {
  }

  /** The disk when the machine goes down after k writes of commit. */
  function CrashedCommit(d: Disk, start: int, blocks: seq<int>, data: seq<Block>, k: int): (r: Disk)
    requires Transaction(d, start, blocks, data) && 0 <= k <= |CommitWrites(start, d[start], blocks, data)|
    ensures |r| == |d|
  {
    CommitInRange(d, start, blocks, data);
    After(d, CommitWrites(start, d[start], blocks, data), k)
  }

  /** d' differs from d by a log that holds the transaction. */
  predicate Committed(d: Disk, d': Disk, start: int, blocks: seq<int>, data: seq<Block>)
    requires Transaction(d, start, blocks, data)
  {
    && |d'| == |d| && d'[start] == WithHeader(d[start], blocks)
    && d'[start + 1..start + 1 + |data|] == data
    && (forall b :: 0 <= b < |d| && !InLog(start, b) ==> d'[b] == d[b])
  }

  /** The header write makes the log hold the transaction. */
  lemma {:induction false} HeaderCommits(d: Disk, start: int, blocks: seq<int>, data: seq<Block>)
    requires Transaction(d, start, blocks, data)
    ensures InRange(d, ReadyWrites(start, d[start], blocks, data))
    ensures Committed(d, After(d, ReadyWrites(start, d[start], blocks, data), |data| + 1), start, blocks, data)
  {
    var logs, head := LogWrites(start, data), [Write(start, WithHeader(d[start], blocks))];
    AfterLogWrites(d, start, data, |data|, start);
    AfterSuffix(d, logs, head, 1);
    var d1 := After(d, logs, |data|);
    forall b | 0 <= b < |d|
      ensures d1[b] == if start < b <= start + |data| then data[b - start - 1] else d[b]
    {
      AfterLogWrites(d, start, data, |data|, b);
    }
  }

  lemma {:induction false} CommittedHome(d: Disk, d': Disk, start: int, blocks: seq<int>, data: seq<Block>)
    requires Transaction(d, start, blocks, data) && Committed(d, d', start, blocks, data)
    ensures LogOk(d', start) && HeaderBlocks(d'[start]) == blocks && LogData(d', start) == data
    ensures forall b :: 0 <= b < |d| && !InLog(start, b) ==> Home(d', start, b) == Updated(d, blocks, data, b)
  {
    HeaderRoundTrip(d[start], blocks);
    forall b | 0 <= b < |d| && !InLog(start, b)
      ensures Home(d', start, b) == Updated(d, blocks, data, b)
    {
      if b in blocks {
        var i := IndexOf(blocks, b);
        assert d'[start + 1..start + 1 + |data|][i] == d'[start + 1 + i];
      }
    }
  }

  /** A crash before the header write: the log still counts as empty. */
  lemma {:induction false} EarlyCrash(d: Disk, start: int, blocks: seq<int>, data: seq<Block>, k: int)
    requires Transaction(d, start, blocks, data) && 0 <= k <= |data|
    ensures InRange(d, LogWrites(start, data))
    ensures var d' := After(d, LogWrites(start, data), k);
            && LogOk(d', start) && d'[start][0] == 0
            && (forall b :: 0 <= b < |d| && !InLog(start, b) ==> Home(d', start, b) == d[b])
  {
    AfterLogWrites(d, start, data, k, start);
    var d' := After(d, LogWrites(start, data), k);
    forall b | 0 <= b < |d| && !InLog(start, b)
      ensures d'[b] == d[b]
    {
      AfterLogWrites(d, start, data, k, b);
    }
    assert HeaderBlocks(d'[start]) == [];
  }

  /** What commit does after the header write is what recovery would do. */
  lemma {:induction false} CommitIsRedo(d: Disk, d': Disk, start: int, blocks: seq<int>, data: seq<Block>)
    requires Transaction(d, start, blocks, data) && Committed(d, d', start, blocks, data)
    requires LogOk(d', start) && HeaderBlocks(d'[start]) == blocks && LogData(d', start) == data
    ensures RecoverWrites(d', start) == RedoWrites(start, WithHeader(d[start], blocks), blocks, data)
    ensures d'[start][0] == |data|
  {
    HeaderRoundTrip(d[start], blocks);
  }

  lemma {:induction false} SplitCommit(d: Disk, start: int, blocks: seq<int>, data: seq<Block>, k: int)
    requires Transaction(d, start, blocks, data) && |data| < k <= |CommitWrites(start, d[start], blocks, data)|
    ensures InRange(d, ReadyWrites(start, d[start], blocks, data))
    ensures InRange(d, RedoWrites(start, WithHeader(d[start], blocks), blocks, data)) && k - |data| - 1 <= |data| + 1
    ensures CrashedCommit(d, start, blocks, data, k) ==
            After(After(d, ReadyWrites(start, d[start], blocks, data), |data| + 1),
                  RedoWrites(start, WithHeader(d[start], blocks), blocks, data), k - |data| - 1)
  {
    CommitInRange(d, start, blocks, data);
    var ready, redo := ReadyWrites(start, d[start], blocks, data),
        RedoWrites(start, WithHeader(d[start], blocks), blocks, data);
    AfterBoth(d, ready, redo, CommitWrites(start, d[start], blocks, data), k);
  }

  /** A crash late in commit leaves the disk as a crash of the recovery from the committed log would. */
  lemma {:induction false} LateCrashIsRecovery(d: Disk, start: int, blocks: seq<int>, data: seq<Block>, k: int)
    returns (d': Disk)
    requires Transaction(d, start, blocks, data) && |data| < k <= |CommitWrites(start, d[start], blocks, data)|
    ensures Committed(d, d', start, blocks, data) && LogOk(d', start) && 0 <= k - |data| - 1 <= d'[start][0] + 1
    ensures CrashedCommit(d, start, blocks, data, k) == CrashedRecovery(d', start, k - |data| - 1)
  {
    SplitCommit(d, start, blocks, data, k);
    HeaderCommits(d, start, blocks, data);
    d' := After(d, ReadyWrites(start, d[start], blocks, data), |data| + 1);
    CommittedHome(d, d', start, blocks, data);
    CommitIsRedo(d, d', start, blocks, data);
  }

  /** A crash after the header write: the transaction is logged, or installed and cleared. */
  lemma {:induction false} LateCrash(d: Disk, start: int, blocks: seq<int>, data: seq<Block>, k: int)
    requires Transaction(d, start, blocks, data) && |data| < k <= |CommitWrites(start, d[start], blocks, data)|
    ensures var d' := CrashedCommit(d, start, blocks, data, k);
            && LogOk(d', start)
            && (forall b :: 0 <= b < |d| && !InLog(start, b) ==> Home(d', start, b) == Updated(d, blocks, data, b))
  {
    var d1 := LateCrashIsRecovery(d, start, blocks, data, k);
    var d' := CrashedRecovery(d1, start, k - |data| - 1);
    assert LogOk(d', start) by {
      RecoveryKeepsHome(d1, start, k - |data| - 1);
    }
    forall b | 0 <= b < |d| && !InLog(start, b)
      ensures Home(d', start, b) == Updated(d, blocks, data, b)
    {
      RecoveryKeepsHome(d1, start, k - |data| - 1);
      CommittedHome(d, d1, start, blocks, data);
    }
  }

  /**
   Crash atomicity. Take any crash point of commit and any number of further crashes during the
   recoveries that follow. In the end every home block has the contents it had before the transaction,
   or every one has the contents the transaction gave it; the latter exactly when the header write with
   the block numbers had reached the disk. The log is empty again.
   */
  lemma {:induction false} CrashAtomic(d: Disk, start: int, blocks: seq<int>, data: seq<Block>, k: int,
                                       crashes: seq<int>)
    requires Transaction(d, start, blocks, data) && 0 <= k <= |CommitWrites(start, d[start], blocks, data)|
    ensures LogOk(CrashedCommit(d, start, blocks, data, k), start)
    ensures var r := Boots(CrashedCommit(d, start, blocks, data, k), start, crashes);
            && LogOk(r, start) && r[start][0] == 0
            && (forall b :: 0 <= b < |d| && !InLog(start, b) ==>
                  r[b] == if k > |blocks| then Updated(d, blocks, data, b) else d[b])
  {
    if k > |data| {
      LateCrash(d, start, blocks, data, k);
    } else {
      EarlyCrash(d, start, blocks, data, k);
      CommitInRange(d, start, blocks, data);
      if k > 0 {
        AfterPrefix(d, ReadyWrites(start, d[start], blocks, data),
          RedoWrites(start, WithHeader(d[start], blocks), blocks, data), k);
        AfterPrefix(d, LogWrites(start, data), [Write(start, WithHeader(d[start], blocks))], k);
      }
    }
    BootsReachHome(CrashedCommit(d, start, blocks, data, k), start, crashes);
  }
}
