/**
 filewrite: a large write is cut into chunks, each in a log transaction of its own, so that no transaction
 logs more blocks than begin_op reserved for it.
 */
module FileWrite {
  import opened BlockFormat
  import opened FileSystem
  import Collections
  import opened Params

  ghost function DataBlocks(d: Disk, i: int, lo: int, hi: int): (r: set<int>)
    requires Shape(d) && 0 <= i < |d.inodes|
    ensures |r| <= Max(0, hi - lo + 1)
    ensures forall bn :: lo <= bn <= hi && 0 <= bn < MAXFILE ==> Slot(d, i, FileSlot(bn)) in r
    decreases hi - lo + 1
  {
    if lo > hi then {}
    else DataBlocks(d, i, lo, hi - 1) + (if 0 <= hi < MAXFILE then {Slot(d, i, FileSlot(hi))} else {})
  }

  /** A chunk of at most 3072 bytes, wherever it starts, touches at most 4 data blocks and so logs at most 7 blocks. */
  lemma ChunkBound(d: Disk, bitmap: int, iblock: int, i: int, off: int, n: int, logged: set<int>)
    requires Shape(d) && 0 <= i < |d.inodes| && 0 <= off && 0 < n <= 3 * BSIZE
    requires forall x :: x in logged ==> MayLog(d, bitmap, iblock, i, off / BSIZE, (off + n - 1) / BSIZE, x)
    ensures |logged| <= 7
  {
    var lo, hi := off / BSIZE, (off + n - 1) / BSIZE;
    var data := DataBlocks(d, i, lo, hi);
    var meta := {bitmap, iblock, Slot(d, i, NDIRECT)};
    forall x | x in logged
      ensures x in meta + data
    {
      if !(x in meta) {
        var bn :| lo <= bn <= hi && 0 <= bn < MAXFILE && IsData(d, i, bn, x);
      }
    }
    Collections.SubsetSize(logged, meta + data);
    Collections.SubsetSize(data - meta, data);
    assert |meta + data| == |meta| + |data - meta|;
    assert |meta| <= 3;
  }

  /** Every file has the same bytes. */
  ghost predicate SameFiles(d0: Disk, d: Disk) {
    && Shape(d0) && Shape(d) && FilesOk(d0) && FilesOk(d) && |d.inodes| == |d0.inodes|
    && (forall j {:trigger SameFile(d0, d, j)} :: 0 <= j < |d.inodes| ==> SameFile(d0, d, j))
  }

  lemma SameFilesRefl(d: Disk)
    requires Shape(d) && FilesOk(d)
    ensures SameFiles(d, d)
  {
  }

  lemma OverwriteTwice(c: seq<int>, off: int, a: seq<int>, b: seq<int>)
    requires 0 <= off <= |c|
    ensures off + |a| <= |Overwritten(c, off, a)|
    ensures Overwritten(Overwritten(c, off, a), off + |a|, b) == Overwritten(c, off, a + b)
  {
  }

  lemma OverwriteNothing(c: seq<int>, off: int, b: seq<int>)
    requires 0 <= off <= |c|
    ensures b == [] ==> Overwritten(c, off, b) == c
  {
  }

  /** total bytes of src are in file i from offset off on, and nothing else has changed in any file. */
  ghost predicate WroteFile(d0: Disk, d: Disk, i: int, off: int, src: seq<int>, total: int) {
    0 <= total <= |src| && if total == 0 then SameFiles(d0, d) else WriteDone(d0, d, i, off, src[..total])
  }

  /** Files other than i are the same across both steps. */
  lemma OthersCompose(d0: Disk, d1: Disk, d: Disk, i: int)
    requires Shape(d0) && Shape(d1) && Shape(d) && |d0.inodes| == |d1.inodes| == |d.inodes|
    requires OthersSame(d0, d1, i) && OthersSame(d1, d, i)
    ensures OthersSame(d0, d, i)
  {
    forall j | 0 <= j < |d.inodes| && j != i
      ensures SameFile(d0, d, j)
    {
      assert SameFile(d0, d1, j) && SameFile(d1, d, j);
    }
  }

  /** The next chunk continues the write. */
  lemma WritesCompose(d0: Disk, d1: Disk, d: Disk, i: int, off: int, a: seq<int>, b: seq<int>)
    requires 0 <= i < |d1.inodes| && 0 <= off && WriteDone(d0, d1, i, off, a) && WriteDone(d1, d, i, off + |a|, b)
    ensures WriteDone(d0, d, i, off, a + b)
  {
    OthersCompose(d0, d1, d, i);
    OverwriteTwice(Contents(d0, i), off, a, b);
  }

  lemma FirstWrite(d0: Disk, d1: Disk, d: Disk, i: int, off: int, b: seq<int>)
    requires 0 <= i < |d1.inodes| && 0 <= off && SameFiles(d0, d1) && WriteDone(d1, d, i, off, b)
    ensures WriteDone(d0, d, i, off, b)
    ensures b == [] ==> SameFiles(d0, d)
  {
    assert SameFile(d0, d1, i);
    OthersCompose(d0, d1, d, i);
    OverwriteNothing(Contents(d1, i), off, b);
  }

  lemma WriteContinues(d0: Disk, d1: Disk, d: Disk, i: int, off: int, src: seq<int>, total: int, r: int)
    requires 0 <= total && 0 <= r && total + r <= |src| && 0 <= i < |d1.inodes| && 0 <= off
    requires WroteFile(d0, d1, i, off, src, total)
    requires WriteDone(d1, d, i, off + total, src[total..total + r])
    ensures WroteFile(d0, d, i, off, src, total + r)
  {
    var a, b := src[..total], src[total..total + r];
    assert a + b == src[..total + r];
    if total == 0 {
      assert b == src[..r];
      FirstWrite(d0, d1, d, i, off, b);
    } else {
      WritesCompose(d0, d1, d, i, off, a, b);
    }
  }

  /** One chunk, of which r bytes went in, or which writei refused. */
  lemma ChunkDone(d0: Disk, d1: Disk, d: Disk, i: int, off: int, src: seq<int>, total: int, bytes: seq<int>, r: int)
    requires 0 <= i < |d1.inodes| && 0 <= off && 0 <= total && total + |bytes| <= |src| &&
             bytes == src[total..total + |bytes|]
    requires WroteFile(d0, d1, i, off, src, total) && -1 <= r <= |bytes|
    requires if r == -1 then d == d1 else WriteDone(d1, d, i, off + total, bytes[..r])
    ensures WroteFile(d0, d, i, off, src, if r > 0 then total + r else total)
  {
    if r >= 0 {
      assert bytes[..r] == src[total..total + r];
      WriteContinues(d0, d1, d, i, off, src, total, r);
    }
  }

  predicate DiskFull(d: Disk) {
    forall b :: 0 <= b < |d.bits| ==> d.bits[b]
  }

  /** The size while a write is under way: as it was before the first byte, and then at least the offset reached. */
  lemma SizeSoFar(d0: Disk, d: Disk, i: int, off: int, src: seq<int>, total: int)
    requires 0 <= i < |d.inodes| && 0 <= off && WroteFile(d0, d, i, off, src, total)
    ensures 0 <= i < |d0.inodes| &&
            if total == 0 then d.inodes[i].size == d0.inodes[i].size else off + total <= d.inodes[i].size
  {
    assert FileOk(d, i);
    if total == 0 {
      assert SameFile(d0, d, i);
    } else {
      assert |Contents(d, i)| == |Overwritten(Contents(d0, i), off, src[..total])|;
    }
  }

  // ---- the transactions of a write ----

  /** The largest chunk: what is left of MAXOPBLOCKS for data, halved, in bytes. */
  const CHUNK := (MAXOPBLOCKS - 1 - 1 - 2) / 2 * BSIZE

  ghost predicate Sane(lay: Layout, d: Disk) {
    exists own :: Sound(lay, d, own)
  }

  predicate Synced(d: Disk) {
    d.dinodes == d.inodes
  }

  /** A transaction logs only blocks outside the log, and at most 7, */
  ghost predicate OpSize(lay: Layout, d: Disk, op: set<int>) {
    AllLoggable(lay, |d.blocks|, |d.inodes|, op) && (|d.blocks| <= BPB ==> |op| <= 7 < MAXOPBLOCKS)
  }

  /** and every block that it changes. */
  ghost predicate OpOk(lay: Layout, d: Disk, d': Disk, op: set<int>) {
    Recorded(lay, d, d', op) && OpSize(lay, d, op)
  }

  /** A state between transactions: total bytes of the write of src to file i are in, and the disk is in order. */
  ghost predicate StateOk(lay: Layout, d0: Disk, d: Disk, i: int, off: int, src: seq<int>, total: int) {
    && Sane(lay, d) && WroteFile(d0, d, i, off, src, total)
    && |d.blocks| == |d0.blocks| && (Synced(d0) ==> Synced(d))
  }

  /** What is written after k of n transactions: all but the last one write a whole chunk. */
  function Boundary(k: int, n: int, total: int): int {
    if k < n then k * CHUNK else total
  }

  ghost predicate OpAt(lay: Layout, disks: seq<Disk>, ops: seq<set<int>>, k: int)
    requires 0 <= k < |ops| < |disks|
  {
    OpOk(lay, disks[k], disks[k + 1], ops[k])
  }

  ghost predicate StateAt(lay: Layout, disks: seq<Disk>, n: int, i: int, off: int, src: seq<int>, total: int, k: int)
    requires 0 <= k < |disks|
  {
    StateOk(lay, disks[0], disks[k], i, off, src, Boundary(k, n, total))
  }

  /** disks are the states between the transactions of a write, ops the blocks that each of them logged. */
  ghost predicate History(lay: Layout, disks: seq<Disk>, ops: seq<set<int>>, i: int, off: int, src: seq<int>,
                          total: int) {
    && |disks| == |ops| + 1
    && (forall k {:trigger OpAt(lay, disks, ops, k)} :: 0 <= k < |ops| ==> OpAt(lay, disks, ops, k))
    && (forall k {:trigger StateAt(lay, disks, |ops|, i, off, src, total, k)} ::
          0 <= k < |disks| ==> StateAt(lay, disks, |ops|, i, off, src, total, k))
  }

  lemma HistoryStarts(lay: Layout, d: Disk, own: map<int, Owner>, i: int, off: int, src: seq<int>)
    requires Sound(lay, d, own)
    ensures History(lay, [d], [], i, off, src, 0)
  {
    SameFilesRefl(d);
    assert forall k :: 0 <= k < 1 ==> StateAt(lay, [d], 0, i, off, src, 0, k);
  }

  lemma HistoryEnds(lay: Layout, disks: seq<Disk>, ops: seq<set<int>>, i: int, off: int, src: seq<int>, total: int)
    requires History(lay, disks, ops, i, off, src, total)
    ensures StateOk(lay, disks[0], disks[|ops|], i, off, src, total)
  {
    assert StateAt(lay, disks, |ops|, i, off, src, total, |ops|);
  }

  /** The size while the write is under way. */
  lemma HistorySize(lay: Layout, disks: seq<Disk>, ops: seq<set<int>>, i: int, off: int, src: seq<int>, total: int)
    requires History(lay, disks, ops, i, off, src, total) && 0 <= off && 0 <= i < |disks[|ops|].inodes|
    ensures 0 <= i < |disks[0].inodes|
    ensures if total == 0 then disks[|ops|].inodes[i].size == disks[0].inodes[i].size
            else off + total <= disks[|ops|].inodes[i].size
  {
    HistoryEnds(lay, disks, ops, i, off, src, total);
    SizeSoFar(disks[0], disks[|ops|], i, off, src, total);
  }

  /** One transaction more, after whole chunks only. */
  lemma HistoryGrows(lay: Layout, disks: seq<Disk>, ops: seq<set<int>>, i: int, off: int, src: seq<int>, total: int,
                     d: Disk, op: set<int>, total': int)
    requires History(lay, disks, ops, i, off, src, total) && total == |ops| * CHUNK
    requires OpOk(lay, disks[|ops|], d, op) && StateOk(lay, disks[0], d, i, off, src, total')
    ensures History(lay, disks + [d], ops + [op], i, off, src, total')
  {
    var disks', ops', n, n' := disks + [d], ops + [op], |ops|, |ops| + 1;
    forall k | 0 <= k < |ops'|
      ensures OpAt(lay, disks', ops', k)
    {
      assert k < n ==> OpAt(lay, disks, ops, k);
    }
    forall k | 0 <= k < |disks'|
      ensures StateAt(lay, disks', n', i, off, src, total', k)
    {
      assert k <= n ==> StateAt(lay, disks, n, i, off, src, total, k);
    }
  }

  /** A transaction that begins at byte start of the source, counts it up to total and stores it up to limit. */
  ghost predicate StrayOp(lay: Layout, d0: Disk, d: Disk, op: set<int>, i: int, off: int, src: seq<int>, limit: int,
                          start: int, total: int) {
    && OpSize(lay, d0, op) && 0 <= start <= total < limit < |src|
    && Written(lay, d0, d, op, i, off + start, src[start..Min(|src|, start + CHUNK)], limit - start, total - start,
               limit - start)
  }

  /** The last transaction stored more bytes than it counts, up to the limit of the source; the others are in order. */
  ghost predicate Strayed(lay: Layout, disks: seq<Disk>, ops: seq<set<int>>, i: int, off: int, src: seq<int>,
                          limit: int, total: int) {
    var n := |ops| - 1;
    && 0 <= n && |disks| == n + 2 && History(lay, disks[..n + 1], ops[..n], i, off, src, n * CHUNK)
    && StrayOp(lay, disks[n], disks[n + 1], ops[n], i, off, src, limit, n * CHUNK, total)
  }

  lemma StrayIs(lay: Layout, d0: Disk, d: Disk, op: set<int>, i: int, off: int, src: seq<int>, limit: int, start: int,
                bytes: seq<int>, r: int, stored: int)
    requires OpSize(lay, d0, op) && 0 <= start && |bytes| == Min(|src| - start, CHUNK) && 0 <= r < stored
    requires start + |bytes| <= |src| && bytes == src[start..start + |bytes|]
    requires Written(lay, d0, d, op, i, off + start, bytes, limit - start, r, stored)
    ensures StrayOp(lay, d0, d, op, i, off, src, limit, start, start + r)
  {
    assert src[start..Min(|src|, start + CHUNK)] == bytes && stored == limit - start;
  }

  lemma StrayEnds(lay: Layout, disks: seq<Disk>, ops: seq<set<int>>, i: int, off: int, src: seq<int>, limit: int,
                  total: int, d: Disk, op: set<int>, bytes: seq<int>, r: int, stored: int)
    requires History(lay, disks, ops, i, off, src, total) && total == |ops| * CHUNK && OpSize(lay, disks[|ops|], op)
    requires |bytes| == Min(|src| - total, CHUNK) && bytes == src[total..total + |bytes|] && 0 <= r < stored
    requires Written(lay, disks[|ops|], d, op, i, off + total, bytes, limit - total, r, stored)
    ensures Strayed(lay, disks + [d], ops + [op], i, off, src, limit, total + r)
  {
    var disks', ops', n := disks + [d], ops + [op], |ops|;
    StrayIs(lay, disks[n], d, op, i, off, src, limit, total, bytes, r, stored);
    assert disks'[..n + 1] == disks && ops'[..n] == ops;
    assert disks'[n] == disks[n] && disks'[n + 1] == d && ops'[n] == op;
  }

  /** An open inode file: the inode and the offset that read and write move. */
  class File {
    const ip: int
    var off: int

    constructor (i: int)
      ensures ip == i && off == 0
    {
      ip, off := i, 0;
    }

    /**
     filewrite on an inode file; the source can be read up to limit. total is the number of bytes that it counts as
     written, ops lists the blocks that each transaction handed to log_write, and disks the states between transactions.
     stray says that the source ran out inside a block, so that the last transaction is not as it should be.
     */
    method Write(fs: FileSys, src: seq<int>, limit: nat)
      returns (ret: int, ghost total: int, ghost ops: seq<set<int>>, ghost disks: seq<Disk>, ghost stray: bool)
      requires fs.Valid() && 0 <= ip < |fs.d.inodes| && 0 <= off <= MAXFILE * BSIZE && |src| < INT32
      modifies fs`d, fs`own, fs`logged, this`off
      ensures fs.Valid() && 0 <= total <= |src| && off == old(off) + total <= MAXFILE * BSIZE
      ensures ret == if total == |src| then |src| else -1
      ensures |disks| == |ops| + 1 && disks[0] == old(fs.d) && disks[|ops|] == fs.d
      ensures !stray ==> History(fs.lay, disks, ops, ip, old(off), src, total)
      ensures !stray ==> WroteFile(old(fs.d), fs.d, ip, old(off), src, total)
      ensures stray ==> Strayed(fs.lay, disks, ops, ip, old(off), src, limit, total)
      ensures total < |src| && limit >= |src| ==>
              DiskFull(fs.d) || old(off) > old(fs.d).inodes[ip].size || old(off) + |src| > MAXFILE * BSIZE
    {
      var max := ((MAXOPBLOCKS - 1 - 1 - 2) / 2) * BSIZE;
      var n, k := |src|, 0;
      ghost var off0 := off;
      ops, disks, total, stray := [], [fs.d], 0, false;
      HistoryStarts(fs.lay, fs.d, fs.own, ip, off, src);
      while k < n
        invariant fs.Valid() && 0 <= ip < |fs.d.inodes| && 0 <= k == total <= n && off == off0 + k <= MAXFILE * BSIZE
        invariant History(fs.lay, disks, ops, ip, off0, src, total) && disks[0] == old(fs.d) && disks[|ops|] == fs.d
        invariant !stray && (k < n ==> total == |ops| * CHUNK) && (k > 0 ==> k <= limit)
      {
        var n1 := if n - k > max then max else n - k;
        var r;
        r, total, ops, disks, stray := NextChunk(fs, src[k..k + n1], limit - k, off0, src, limit, total, ops, disks);
        if r != n1 {
          break;
        }
        k := k + r;
      }
      ret := if k == n then n else -1;
      if !stray {
        HistoryEnds(fs.lay, disks, ops, ip, off0, src, total);
      }
    }

    /** A chunk and what it adds to the history. */
    method NextChunk(fs: FileSys, bytes: seq<int>, left: nat, ghost start: int, ghost src: seq<int>, ghost limit: int,
                     ghost total: int, ghost ops: seq<set<int>>, ghost disks: seq<Disk>)
      returns (r: int, ghost total': int, ghost ops': seq<set<int>>, ghost disks': seq<Disk>, ghost stray: bool)
      requires fs.Valid() && 0 <= ip < |fs.d.inodes| && 0 <= off <= MAXFILE * BSIZE && 0 < |bytes| <= CHUNK
      requires 0 <= start && off == start + total && left == limit - total && total == |ops| * CHUNK < |src|
      requires |bytes| == Min(|src| - total, CHUNK) && bytes == src[total..total + |bytes|]
      requires History(fs.lay, disks, ops, ip, start, src, total) && disks[|ops|] == fs.d
      modifies fs`d, fs`own, fs`logged, this`off
      ensures fs.Valid() && 0 <= ip < |fs.d.inodes| && -1 <= r <= |bytes| && r <= left
      ensures total' == (if r > 0 then total + r else total) && off == start + total' <= MAXFILE * BSIZE
      ensures ops' == ops + [fs.logged] && disks' == disks + [fs.d]
      ensures !stray ==> History(fs.lay, disks', ops', ip, start, src, total')
      ensures stray ==> r < |bytes| && Strayed(fs.lay, disks', ops', ip, start, src, limit, total')
      ensures 0 <= ip < |disks[0].inodes|
      ensures r < |bytes| && left >= |bytes| ==>
              DiskFull(fs.d) || start > disks[0].inodes[ip].size || start + |src| > MAXFILE * BSIZE
    {
      ghost var stored;
      ghost var d1, off1 := fs.d, off;
      HistorySize(fs.lay, disks, ops, ip, start, src, total);
      r, stored := Chunk(fs, bytes, left);
      total' := if r > 0 then total + r else total;
      ops', disks' := ops + [fs.logged], disks + [fs.d];
      stray := r != -1 && r < stored;
      ChunkHistory(fs.lay, disks, ops, ip, start, src, limit, total, d1, off1, left, fs.d, fs.own, fs.logged, bytes, r,
        stored);
    }

    /** One transaction: begin_op, writei, the new offset, end_op. */
    method Chunk(fs: FileSys, bytes: seq<int>, limit: nat) returns (r: int, ghost stored: int)
      requires fs.Valid() && 0 <= ip < |fs.d.inodes| && 0 <= off <= MAXFILE * BSIZE && 0 < |bytes| <= CHUNK
      modifies fs`d, fs`own, fs`logged, this`off
      ensures fs.Valid() && -1 <= r <= |bytes| && off == (if r > 0 then old(off) + r else old(off)) <= MAXFILE * BSIZE
      ensures r == -1 <==> old(off) > old(fs.d).inodes[ip].size || old(off) + |bytes| > MAXFILE * BSIZE
      ensures r == -1 ==> fs.d == old(fs.d)
      ensures r != -1 ==> Written(fs.lay, old(fs.d), fs.d, fs.logged, ip, old(off), bytes, limit, r, stored)
      ensures OpSize(fs.lay, old(fs.d), fs.logged)
      ensures r == -1 || r == stored ==> OpOk(fs.lay, old(fs.d), fs.d, fs.logged)
    {
      fs.logged := {};
      RecordedRefl(fs.lay, fs.d, {});
      r, stored := fs.Writei(ip, off, bytes, limit);
      if |fs.d.blocks| <= BPB {
        ChunkBound(fs.d, fs.lay.bmapstart, IBlock(fs.lay, ip), ip, off, |bytes|, fs.logged);
      }
      if r > 0 {
        off := off + r;
      }
    }
  }

  lemma ChunkState(lay: Layout, d0: Disk, d1: Disk, d: Disk, own: map<int, Owner>, i: int, off: int, src: seq<int>,
                   total: int, bytes: seq<int>, r: int)
    requires 0 <= i < |d1.inodes| && 0 <= off && 0 <= total && total + |bytes| <= |src|
    requires bytes == src[total..total + |bytes|] && -1 <= r <= |bytes|
    requires StateOk(lay, d0, d1, i, off, src, total) && Sound(lay, d, own) && |d.blocks| == |d1.blocks|
    requires if r == -1 then d == d1 else WriteDone(d1, d, i, off + total, bytes[..r]) && Updates(d1, d, i)
    ensures StateOk(lay, d0, d, i, off, src, if r > 0 then total + r else total)
  {
    ChunkDone(d0, d1, d, i, off, src, total, bytes, r);
  }

  lemma ChunkHistory(lay: Layout, disks: seq<Disk>, ops: seq<set<int>>, i: int, off: int, src: seq<int>, limit: int,
                     total: int, d1: Disk, off1: int, left: int, d: Disk, own: map<int, Owner>, op: set<int>,
                     bytes: seq<int>, r: int, stored: int)
    requires History(lay, disks, ops, i, off, src, total) && total == |ops| * CHUNK < |src| && 0 <= off
    requires |bytes| == Min(|src| - total, CHUNK) && bytes == src[total..total + |bytes|]
    requires d1 == disks[|ops|] && off1 == off + total && left == limit - total
    requires 0 <= i < |d1.inodes| && Sound(lay, d, own) && -1 <= r <= |bytes| && OpSize(lay, d1, op)
    requires if r == -1 then d == d1 else Written(lay, d1, d, op, i, off1, bytes, left, r, stored)
    requires r == -1 || r == stored ==> OpOk(lay, d1, d, op)
    ensures var total' := if r > 0 then total + r else total;
            if r != -1 && r < stored then Strayed(lay, disks + [d], ops + [op], i, off, src, limit, total')
            else History(lay, disks + [d], ops + [op], i, off, src, total')
  {
    if r != -1 && r < stored {
      StrayEnds(lay, disks, ops, i, off, src, limit, total, d, op, bytes, r, stored);
    } else {
      HistoryEnds(lay, disks, ops, i, off, src, total);
      ChunkState(lay, disks[0], disks[|ops|], d, own, i, off, src, total, bytes, r);
      HistoryGrows(lay, disks, ops, i, off, src, total, d, op, if r > 0 then total + r else total);
    }
  }
}
