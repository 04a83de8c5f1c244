/**
 A crash during filewrite: whatever block write was the last to reach the disk, the file system found after
 recovery is the one between two transactions of the write.
 */
module CrashWrite {
  import opened Collections
  import opened DiskImage
  import opened FileSystem
  import opened FileWrite
  import opened Params
  import CrashHistory
  import CrashLog

  /** Transaction t writes the logged blocks, in the order of log_write, with the contents that they have in r. */
  ghost predicate TxOf(t: CrashHistory.Tx, op: set<int>, r: Image) {
    && Distinct(t.blocks) && Members(t.blocks) == op && |t.data| == |t.blocks|
    && (forall j :: 0 <= j < |t.blocks| ==> 0 <= t.blocks[j] < |r| && t.data[j] == r[t.blocks[j]])
  }

  /** There is such a transaction. */
  lemma {:induction false} SomeTx(op: set<int>, r: Image) returns (t: CrashHistory.Tx)
    requires forall x :: x in op ==> 0 <= x < |r|
    ensures TxOf(t, op, r)
    decreases |op|
  {
    t := CrashHistory.Tx([], []);
    if op != {} {
      var x := Pick(op);
      var rest := SomeTx(op - {x}, r);
      assert x !in Members(rest.blocks);
      t := CrashHistory.Tx(rest.blocks + [x], rest.data + [r[x]]);
      assert Members(t.blocks) == Members(rest.blocks) + {x};
    } else {
      MembersSize(t.blocks);
    }
  }

  /** The transactions that commit the given states one after the other. */
  ghost predicate Commits(lay: Layout, base: Image, disks: seq<Disk>, ops: seq<set<int>>, txs: seq<CrashHistory.Tx>) {
    && |txs| == |ops| == |disks| - 1
    && (forall k {:trigger CommitAt(lay, base, disks, ops, txs, k)} ::
          0 <= k < |txs| ==> CommitAt(lay, base, disks, ops, txs, k))
  }

  ghost predicate CommitAt(lay: Layout, base: Image, disks: seq<Disk>, ops: seq<set<int>>, txs: seq<CrashHistory.Tx>,
                           k: int)
    requires 0 <= k < |txs| && |txs| == |ops| == |disks| - 1
  {
    && DiskAt(lay, base, disks, k) && DiskAt(lay, base, disks, k + 1) && |ops[k]| <= LOGBLOCKS
    && Recorded(lay, disks[k], disks[k + 1], ops[k])
    && AllLoggable(lay, |disks[k].blocks|, |disks[k].inodes|, ops[k])
    && TxOf(txs[k], ops[k], Imaged(lay, base, disks[k + 1]))
  }

  ghost predicate DiskAt(lay: Layout, base: Image, disks: seq<Disk>, k: int)
    requires 0 <= k < |disks|
  {
    && Shape(disks[k]) && InodesOk(disks[k].dinodes) && |base| == |disks[k].blocks|
    && LayoutOk(lay, |disks[k].blocks|, |disks[k].inodes|)
  }

  /** Up to k transactions the blocks are those of state k. */
  lemma {:induction false} ContentsAre(lay: Layout, base: Image, disks: seq<Disk>, ops: seq<set<int>>,
                                       txs: seq<CrashHistory.Tx>, k: int, b: int)
    requires Commits(lay, base, disks, ops, txs) && 0 <= k <= |txs| && 0 <= b < |base|
    requires DiskAt(lay, base, disks, 0)
    ensures DiskAt(lay, base, disks, k)
    ensures CrashHistory.Contents(Imaged(lay, base, disks[0]), txs, k, b) == Imaged(lay, base, disks[k])[b]
    decreases k
  {
    if k > 0 {
      var t := txs[k - 1];
      assert CommitAt(lay, base, disks, ops, txs, k - 1);
      ContentsAre(lay, base, disks, ops, txs, k - 1, b);
      if b !in t.blocks {
        assert b !in Members(t.blocks);
        UnloggedSame(lay, base, disks[k - 1], disks[k], ops[k - 1], b);
      }
    }
  }

  lemma {:induction false} CommitsSerial(lay: Layout, base: Image, disks: seq<Disk>, ops: seq<set<int>>,
                                         txs: seq<CrashHistory.Tx>, k: int)
    requires Commits(lay, base, disks, ops, txs) && 0 <= k <= |txs| && DiskAt(lay, base, disks, 0)
    requires CrashHistory.EmptyLog(Imaged(lay, base, disks[0]), lay.logstart)
    ensures CrashHistory.Serial(Imaged(lay, base, disks[0]), lay.logstart, txs[..k])
    decreases k
  {
    if k > 0 {
      var r, start := Imaged(lay, base, disks[0]), lay.logstart;
      CommitsSerial(lay, base, disks, ops, txs, k - 1);
      CrashHistory.TraceReaches(r, start, txs[..k - 1]);
      assert txs[..k][..k - 1] == txs[..k - 1];
      assert CommitAt(lay, base, disks, ops, txs, k - 1);
      TxLoggable(lay, disks[k - 1], ops[k - 1], txs[k - 1].blocks);
    }
  }

  lemma TxLoggable(lay: Layout, d: Disk, op: set<int>, blocks: seq<int>)
    requires LayoutOk(lay, |d.blocks|, |d.inodes|) && AllLoggable(lay, |d.blocks|, |d.inodes|, op) && |op| <= LOGBLOCKS
    requires Distinct(blocks) && Members(blocks) == op
    ensures CrashLog.Loggable(|d.blocks|, lay.logstart, blocks)
  {
    MembersSize(blocks);
    forall j | 0 <= j < |blocks|
      ensures !CrashLog.InLog(lay.logstart, blocks[j]) && 0 <= blocks[j] < |d.blocks|
    {
      assert blocks[j] in op;
      assert LoggableAt(lay, |d.blocks|, |d.inodes|, blocks[j]);
    }
  }

  /** The disk after a crash that follows the first k block writes of the transactions, and the boots after it. */
  ghost function Recovered(lay: Layout, r: Image, txs: seq<CrashHistory.Tx>, k: int, crashes: seq<int>): (r': Image)
    requires CrashHistory.EmptyLog(r, lay.logstart) && CrashHistory.Serial(r, lay.logstart, txs)
    requires 0 <= k <= |CrashHistory.Trace(r, lay.logstart, txs)|
  {
    CrashHistory.CrashAnywhere(r, lay.logstart, txs, k, crashes);
    CrashLog.Boots(CrashLog.After(r, CrashHistory.Trace(r, lay.logstart, txs), k), lay.logstart, crashes)
  }

  /** After any crash the file system found on the disk is the one after the transactions whose header was written. */
  lemma {:induction false} CrashBetween(lay: Layout, base: Image, disks: seq<Disk>, ops: seq<set<int>>,
                                        txs: seq<CrashHistory.Tx>, k: int, crashes: seq<int>)
    requires Commits(lay, base, disks, ops, txs) && DiskAt(lay, base, disks, 0)
    requires forall j :: 0 <= j < |disks| ==> Sane(lay, disks[j]) && |disks[j].dinodes| == |disks[0].dinodes|
    requires CrashHistory.EmptyLog(Imaged(lay, base, disks[0]), lay.logstart)
    ensures CrashHistory.Serial(Imaged(lay, base, disks[0]), lay.logstart, txs)
    ensures 0 <= k <= |CrashHistory.Trace(Imaged(lay, base, disks[0]), lay.logstart, txs)| ==>
              var r := Imaged(lay, base, disks[0]);
              var n, r' := CrashHistory.CommittedBy(r, lay.logstart, txs, k), Recovered(lay, r, txs, k, crashes);
              && Readable(lay, |disks[0].dinodes|, r')
              && Loaded(lay, |disks[0].dinodes|, r') == disks[n].(inodes := disks[n].dinodes)
  {
    var r, start := Imaged(lay, base, disks[0]), lay.logstart;
    CommitsSerial(lay, base, disks, ops, txs, |txs|);
    assert txs[..|txs|] == txs;
    if 0 <= k <= |CrashHistory.Trace(r, start, txs)| {
      CrashHistory.CrashAnywhere(r, start, txs, k, crashes);
      var n, r' := CrashHistory.CommittedBy(r, start, txs, k), Recovered(lay, r, txs, k, crashes);
      ContentsAre(lay, base, disks, ops, txs, n, 0);
      var image := Imaged(lay, base, disks[n]);
      forall x | lay.inodestart <= x < |r|
        ensures r'[x] == image[x]
      {
        ContentsAre(lay, base, disks, ops, txs, n, x);
      }
      var own :| Sound(lay, disks[n], own);
      LoadedImage(lay, base, disks[n], own);
      LoadedSame(lay, |disks[0].dinodes|, image, r');
    }
  }

  ghost predicate TxAt(lay: Layout, base: Image, disks: seq<Disk>, ops: seq<set<int>>, txs: seq<CrashHistory.Tx>,
                       k: int)
    requires 0 <= k < |txs| && |txs| == |ops| == |disks| - 1
  {
    var d := disks[k + 1];
    InodesOk(d.dinodes) && |base| == |d.blocks| && TxOf(txs[k], ops[k], Imaged(lay, base, d))
  }

  /**
   filewrite and a crash. Take the states and logged blocks of a write, on a disk whose inodes and log are settled, and
   any order in which its transactions log their blocks. Whatever block write was the last before the crash, and however
   often recovery is cut short: the file system then found is the one after the first n transactions, where n counts the
   header writes that reached the disk. Every block belongs to one file or none, and the file holds the old bytes
   overwritten by n whole chunks, or by all that was written.
   */
  lemma WriteSurvivesCrash(lay: Layout, base: Image, disks: seq<Disk>, ops: seq<set<int>>, i: int, off: int,
                           src: seq<int>, total: int, txs: seq<CrashHistory.Tx>, k: int, crashes: seq<int>)
    requires History(lay, disks, ops, i, off, src, total) && Synced(disks[0])
    requires |base| == |disks[0].blocks| <= BPB && InodesOk(disks[0].dinodes) && |txs| == |ops|
    requires forall j {:trigger TxAt(lay, base, disks, ops, txs, j)} ::
               0 <= j < |txs| ==> TxAt(lay, base, disks, ops, txs, j)
    requires CrashHistory.EmptyLog(Imaged(lay, base, disks[0]), lay.logstart)
    ensures CrashHistory.Serial(Imaged(lay, base, disks[0]), lay.logstart, txs)
    ensures 0 <= k <= |CrashHistory.Trace(Imaged(lay, base, disks[0]), lay.logstart, txs)| ==>
              var r := Imaged(lay, base, disks[0]);
              var n, r' := CrashHistory.CommittedBy(r, lay.logstart, txs, k), Recovered(lay, r, txs, k, crashes);
              && Readable(lay, |disks[0].inodes|, r') && Loaded(lay, |disks[0].inodes|, r') == disks[n]
              && Sane(lay, disks[n]) && WroteFile(disks[0], disks[n], i, off, src, Boundary(n, |ops|, total))
  {
    forall j | 0 <= j < |disks|
      ensures Sane(lay, disks[j]) && Synced(disks[j]) && |disks[j].dinodes| == |disks[0].dinodes|
      ensures DiskAt(lay, base, disks, j) && WroteFile(disks[0], disks[j], i, off, src, Boundary(j, |ops|, total))
    {
      assert StateAt(lay, disks, |ops|, i, off, src, total, j);
      var own :| Sound(lay, disks[j], own);
    }
    forall j | 0 <= j < |txs|
      ensures CommitAt(lay, base, disks, ops, txs, j)
    {
      assert OpAt(lay, disks, ops, j) && TxAt(lay, base, disks, ops, txs, j);
    }
    CrashBetween(lay, base, disks, ops, txs, k, crashes);
  }
}
