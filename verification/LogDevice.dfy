/**
 The log code itself, over a buffer cache and a disk: log_write, write_log, write_head, install_trans,
 commit, read_head and recover_from_log, each proved to make exactly the block writes that the crash
 analysis is about.
 */
module LogDevice {
  import opened Collections
  import opened CrashHistory
  import opened CrashLog
  import opened Params

  /** Every cached block outside `dirty` agrees with the disk. */
  ghost predicate Clean(disk: Disk, cache: map<int, Block>, dirty: set<int>) {
    forall b :: b in cache ==> 0 <= b < |disk| && (b in dirty || cache[b] == disk[b])
  }

  /** data lists the cached contents of the given blocks. */
  ghost predicate Cached(cache: map<int, Block>, blocks: seq<int>, data: seq<Block>) {
    |data| == |blocks| && forall i :: 0 <= i < |blocks| ==> blocks[i] in cache && cache[blocks[i]] == data[i]
  }

  lemma AfterOneMore(d: Disk, ws: seq<Write>, w: Write)
    requires InRange(d, ws) && 0 <= w.bn < |d|
    ensures InRange(d, ws + [w]) && After(d, ws + [w], |ws| + 1) == After(d, ws, |ws|)[w.bn := w.data]
  {
    AfterSuffix(d, ws, [w], 1);
  }

  lemma TraceStep(before: seq<Write>, ws: seq<Write>, k: int)
    requires 0 <= k < |ws|
    ensures before + ws[..k] + [ws[k]] == before + ws[..k + 1]
  {
  }

  lemma Regroup(a: seq<Write>, b: seq<Write>, c: seq<Write>)
    ensures a + b + c == a + (b + c)
  {
  }

  /** A block new to the log is appended to it. */
  lemma LoggedNew(disk: Disk, cache: map<int, Block>, start: int, lh: seq<int>, data: seq<Block>, b: int,
                  contents: Block)
    requires Loggable(|disk|, start, lh) && Clean(disk, cache, Members(lh)) && Cached(cache, lh, data)
    requires 0 <= b < |disk| && !InLog(start, b) && |lh| < LOGBLOCKS && b !in lh
    ensures Loggable(|disk|, start, lh + [b]) && Cached(cache[b := contents], lh + [b], data + [contents])
    ensures Clean(disk, cache[b := contents], Members(lh + [b])) && Members(lh + [b]) == Members(lh) + {b}
  {
    var lh' := lh + [b];
    assert lh'[|lh|] == b;
    MembersMore(lh', |lh|);
    assert lh'[..|lh|] == lh && lh'[..|lh| + 1] == lh';
    forall c | c in Members(lh)
      ensures c in Members(lh')
    {
      assert c in lh;
    }
  }

  /** A block already in the log keeps its slot, with new contents. */
  lemma LoggedAgain(disk: Disk, cache: map<int, Block>, start: int, lh: seq<int>, data: seq<Block>, i: int,
                    contents: Block)
    requires Loggable(|disk|, start, lh) && Clean(disk, cache, Members(lh)) && Cached(cache, lh, data) && 0 <= i < |lh|
    ensures Cached(cache[lh[i] := contents], lh, data[i := contents]) &&
            Clean(disk, cache[lh[i] := contents], Members(lh))
  {
  }

  lemma MembersMore(s: seq<int>, k: int)
    requires 0 <= k < |s|
    ensures Members(s[..k + 1]) == Members(s[..k]) + {s[k]}
  {
    assert s[..k + 1] == s[..k] + [s[k]];
  }

  lemma TxAppended(d: Disk, start: int, txs: seq<Tx>, t: Tx, m: Disk)
    requires Serial(d, start, txs) && m == DiskAfter(d, start, txs) && Transaction(m, start, t.blocks, t.data)
    ensures Serial(d, start, txs + [t]) && Trace(d, start, txs + [t]) == Trace(d, start, txs) + WritesOf(m, start, t)
  {
    assert (txs + [t])[..|txs|] == txs;
  }

  /** The writes of a whole recovery leave the log empty. */
  lemma Recovered(boot: Disk, d: Disk, d': Disk, start: int, before: seq<Write>, after: seq<Write>)
    requires LogOk(d, start) && InRange(boot, before) && d == After(boot, before, |before|)
    requires after == before + RecoverWrites(d, start) && InRange(boot, after) && d' == After(boot, after, |after|)
    ensures EmptyLog(d', start)
  {
    RecoverInRange(d, start);
    AfterBoth(boot, before, RecoverWrites(d, start), after, |after|);
    RecoveryKeepsHome(d, start, d[start][0] + 1);
  }

  class Device {
    const start: int
    var disk: Disk
    var cache: map<int, Block>
    var lh: seq<int>                // the in-memory log header
    var pinned: set<int>            // the blocks whose buffers log_write has pinned
    ghost var boot: Disk            // the disk at boot
    ghost var trace: seq<Write>     // the writes that have reached the disk since then
    ghost var base: seq<Write>      // the part of them that recovery made
    ghost var clean: Disk           // the disk when recovery was done
    ghost var txs: seq<Tx>          // the transactions committed since then

    constructor (disk: Disk, start: int)
      requires LogOk(disk, start)
      ensures LogOk(this.disk, this.start) && Traced() && this.disk == boot == disk && this.start == start &&
              trace == []
      ensures cache == map[] && lh == [] && pinned == {}
    {
      this.start, this.disk := start, disk;
      cache, lh, pinned := map[], [], {};
      boot, trace, base, clean, txs := disk, [], [], disk, [];
    }

    ghost predicate Geometry()
      reads this
    {
      0 <= start && start + LOGBLOCKS < |disk| && |disk[start]| == BWORDS
    }

    /** The disk is what the writes since boot have made of it. */
    ghost predicate Traced()
      reads this
    {
      InRange(boot, trace) && disk == After(boot, trace, |trace|)
    }

    /** data is in the cache for the logged blocks, and only those blocks may differ from the disk. */
    ghost predicate Logged(data: seq<Block>)
      reads this
    {
      Geometry() && Traced() && Loggable(|disk|, start, lh) && Clean(disk, cache, Members(lh))
      && Cached(cache, lh, data) && pinned == Members(lh)
    }

    /** The writes since boot are those of recovery followed by those of the transactions committed. */
    ghost predicate Serialised()
      reads this
    {
      && EmptyLog(clean, start) && Serial(clean, start, txs) && InRange(boot, base) &&
         After(boot, base, |base|) == clean
      && trace == base + Trace(clean, start, txs)
    }

    lemma {:induction false} LogIsEmpty()
      requires Traced() && Serialised()
      ensures disk == DiskAfter(clean, start, txs) && EmptyLog(disk, start)
    {
      TraceReaches(clean, start, txs);
      AfterBoth(boot, base, Trace(clean, start, txs), trace, |trace|);
    }

    /**
     A crash after any of the writes since recovery: however often the recoveries that follow are cut short, every
     home block ends as the transactions whose header write had reached the disk left it.
     */
    lemma {:induction false} CrashSafe(k: int, crashes: seq<int>)
      requires Traced() && Serialised() && |base| <= k <= |trace|
      ensures RecoversTo(After(boot, trace, k), start, crashes, clean, txs, CommittedBy(clean, start, txs, k - |base|))
    {
      CrashSince(boot, base, clean, start, txs, trace, k, crashes);
    }

    method Bread(b: int) returns (data: Block)
      requires 0 <= b < |disk|
      modifies this`cache
      ensures data == (if b in old(cache) then old(cache)[b] else disk[b])
      ensures cache == old(cache)[b := data]
    {
      if b !in cache {
        cache := cache[b := disk[b]];
      }
      data := cache[b];
    }

    /** memmove into the buffer of block b, then bwrite. */
    method WriteBlock(b: int, data: Block)
      requires 0 <= b < |disk| && Traced()
      modifies this`cache, this`disk, this`trace
      ensures cache == old(cache)[b := data] && disk == old(disk)[b := data] && trace == old(trace) + [Write(b, data)]
      ensures Traced()
    {
      AfterOneMore(boot, trace, Write(b, data));
      cache := cache[b := data];
      disk := disk[b := cache[b]];
      trace := trace + [Write(b, cache[b])];
    }

    /** write_log: the cached contents of the logged blocks go to the log. */
    method WriteLog(ghost data: seq<Block>)
      requires Logged(data)
      modifies this`cache, this`disk, this`trace
      ensures Logged(data) && |disk| == |old(disk)| && disk[start] == old(disk)[start]
      ensures forall i :: 0 <= i < |lh| ==> disk[start + 1 + i] == data[i]
      ensures trace == old(trace) + LogWrites(start, data)
    {
      ghost var ws := LogWrites(start, data);
      for tail := 0 to |lh|
        invariant Logged(data) && |disk| == |old(disk)| && disk[start] == old(disk)[start]
        invariant forall i :: 0 <= i < tail ==> disk[start + 1 + i] == data[i]
        invariant trace == old(trace) + ws[..tail]
      {
        CopyToLog(tail, data, old(trace));
      }
      assert ws[..|lh|] == ws;
    }

    /** One round of write_log: read the log block and the cached block, copy, write the log block. */
    method CopyToLog(tail: int, ghost data: seq<Block>, ghost before: seq<Write>)
      requires Logged(data) && 0 <= tail < |lh| && trace == before + LogWrites(start, data)[..tail]
      modifies this`cache, this`disk, this`trace
      ensures Logged(data)
      ensures disk == old(disk)[start + 1 + tail := data[tail]] && trace == before + LogWrites(start, data)[..tail + 1]
    {
      TraceStep(before, LogWrites(start, data), tail);
      var to := Bread(start + tail + 1);
      var from := Bread(lh[tail]);
      to := from;
      WriteBlock(start + tail + 1, to);
    }

    /** write_head: the in-memory header goes to the header block. */
    method WriteHead(ghost data: seq<Block>)
      requires Logged(data)
      modifies this`cache, this`disk, this`trace
      ensures Logged(data)
      ensures |lh| < |old(disk)[start]| && disk == old(disk)[start := WithHeader(old(disk)[start], lh)]
      ensures trace == old(trace) + [Write(start, WithHeader(old(disk)[start], lh))]
    {
      var hb := Bread(start);
      ghost var before := hb;
      hb := hb[0 := |lh|];
      for i := 0 to |lh|
        invariant hb == [|lh|] + lh[..i] + before[1 + i..]
      {
        hb := hb[1 + i := lh[i]];
      }
      assert hb == WithHeader(before, lh);
      WriteBlock(start, hb);
    }

    /** install_trans: the log blocks go to the home blocks that the in-memory header names. */
    method InstallTrans(recovering: bool, ghost data: seq<Block>, ghost dirty: set<int>)
      requires Geometry() && Traced() && Loggable(|disk|, start, lh) && Clean(disk, cache, dirty) &&
               dirty <= Members(lh)
      requires |data| == |lh| && forall i :: 0 <= i < |lh| ==> data[i] == disk[start + 1 + i]
      modifies this`cache, this`disk, this`trace, this`pinned
      ensures Geometry() && Traced() && Clean(disk, cache, {})
      ensures pinned == if recovering then old(pinned) else old(pinned) - Members(lh)
      ensures |disk| == |old(disk)| && disk[start] == old(disk)[start]
      ensures trace == old(trace) + HomeWrites(lh, data)
    {
      ghost var ws := HomeWrites(lh, data);
      ghost var rest := dirty;
      for tail := 0 to |lh|
        invariant Geometry() && Traced() && |disk| == |old(disk)| && Clean(disk, cache, rest) && rest <= dirty
        invariant forall i :: 0 <= i < tail ==> lh[i] !in rest
        invariant forall b :: InLog(start, b) ==> disk[b] == old(disk)[b]
        invariant trace == old(trace) + ws[..tail]
        invariant pinned == if recovering then old(pinned) else old(pinned) - Members(lh[..tail])
      {
        InstallBlock(tail, recovering, data, rest, old(trace));
        rest := rest - {lh[tail]};
        MembersMore(lh, tail);
      }
      assert lh[..|lh|] == lh;
      assert ws[..|lh|] == ws;
      assert rest == {};
    }

    /** One round of install_trans: read the log block and the home block, copy, write the home block. */
    method InstallBlock(tail: int, recovering: bool, ghost data: seq<Block>, ghost dirty: set<int>,
                        ghost before: seq<Write>)
      requires 0 <= tail < |lh| == |data| && trace == before + HomeWrites(lh, data)[..tail] && Geometry() && Traced()
      requires Loggable(|disk|, start, lh) && Clean(disk, cache, dirty)
      requires start + 1 + tail !in dirty && disk[start + 1 + tail] == data[tail]
      modifies this`cache, this`disk, this`trace, this`pinned
      ensures pinned == if recovering then old(pinned) else old(pinned) - {lh[tail]}
      ensures disk == old(disk)[lh[tail] := data[tail]] && trace == before + HomeWrites(lh, data)[..tail + 1]
      ensures Geometry() && Traced() && Clean(disk, cache, dirty - {lh[tail]})
    {
      TraceStep(before, HomeWrites(lh, data), tail);
      CopyHome(start + tail + 1, lh[tail], dirty);
      if !recovering {
        pinned := pinned - {lh[tail]};
      }
    }

    /** The copy of install_trans: bread of the log block and of the home block, memmove, bwrite. */
    method CopyHome(logBlock: int, home: int, ghost dirty: set<int>)
      requires 0 <= logBlock < |disk| && 0 <= home < |disk| && logBlock != home && logBlock !in dirty
      requires Traced() && Clean(disk, cache, dirty)
      modifies this`cache, this`disk, this`trace
      ensures disk == old(disk)[home := old(disk)[logBlock]] && Traced() && Clean(disk, cache, dirty - {home})
      ensures trace == old(trace) + [Write(home, old(disk)[logBlock])]
    {
      var lbuf := Bread(logBlock);
      var dbuf := Bread(home);
      dbuf := lbuf;
      WriteBlock(home, dbuf);
    }

    /** write_log and write_head: from here on the transaction is committed. */
    method MakeReady(ghost data: seq<Block>)
      requires Logged(data)
      modifies this`cache, this`disk, this`trace
      ensures Logged(data) && |disk| == |old(disk)|
      ensures |lh| < |old(disk)[start]| && disk[start] == WithHeader(old(disk)[start], lh)
      ensures forall i :: 0 <= i < |lh| ==> disk[start + 1 + i] == data[i]
      ensures trace == old(trace) + ReadyWrites(start, old(disk)[start], lh, data)
    {
      WriteLog(data);
      WriteHead(data);
    }

    /** install_trans and write_head of the empty log. */
    method Redo(recovering: bool, ghost data: seq<Block>, ghost dirty: set<int>)
      requires Geometry() && Traced() && Loggable(|disk|, start, lh) && Clean(disk, cache, dirty) &&
               dirty <= Members(lh)
      requires |data| == |lh| && forall i :: 0 <= i < |lh| ==> data[i] == disk[start + 1 + i]
      requires pinned == if recovering then {} else Members(lh)
      modifies this`cache, this`disk, this`trace, this`lh, this`pinned
      ensures Logged([]) && lh == [] && |disk| == |old(disk)| && disk[start] == WithHeader(old(disk)[start], [])
      ensures trace == old(trace) + RedoWrites(start, old(disk)[start], old(lh), data)
    {
      InstallTrans(recovering, data, dirty);
      lh := [];
      WriteHead([]);
    }

    /** commit: one more transaction, in exactly the writes of CommitWrites; the log is empty again. */
    method Commit(ghost data: seq<Block>)
      requires Logged(data) && Serialised()
      modifies this`cache, this`disk, this`trace, this`lh, this`pinned, this`txs
      ensures Logged([]) && lh == [] && |disk| == |old(disk)| && EmptyLog(disk, start)
      ensures Serialised() && txs == old(txs) + [Tx(old(lh), data)]
      ensures |old(lh)| < |old(disk)[start]|
      ensures trace == old(trace) + CommitWrites(start, old(disk)[start], old(lh), data)
    {
      LogIsEmpty();
      ghost var t := Tx(lh, data);
      WriteOut(data);
      txs := txs + [t];
      TxAppended(clean, start, old(txs), t, old(disk));
      Regroup(base, Trace(clean, start, old(txs)), WritesOf(old(disk), start, t));
      LogIsEmpty();
    }

    /** The body of commit. */
    method WriteOut(ghost data: seq<Block>)
      requires Logged(data)
      modifies this`cache, this`disk, this`trace, this`lh, this`pinned
      ensures Logged([]) && lh == [] && |disk| == |old(disk)|
      ensures |old(lh)| < |old(disk)[start]|
      ensures trace == old(trace) + CommitWrites(start, old(disk)[start], old(lh), data)
    {
      if |lh| > 0 {
        ghost var hb, blocks := disk[start], lh;
        MakeReady(data);
        Redo(false, data, Members(lh));
        Regroup(old(trace), ReadyWrites(start, hb, blocks, data),
          RedoWrites(start, WithHeader(hb, blocks), blocks, data));
      }
    }

    /** read_head: the on-disk header is copied into memory. */
    method ReadHead()
      requires LogOk(disk, start) && Clean(disk, cache, {})
      modifies this`cache, this`lh
      ensures lh == HeaderBlocks(disk[start]) && Clean(disk, cache, {})
    {
      var hb := Bread(start);
      var n := hb[0];
      var blocks: seq<int> := [];
      for i := 0 to n
        invariant blocks == hb[1..1 + i]
      {
        blocks := blocks + [hb[1 + i]];
      }
      lh := blocks;
    }

    /** recover_from_log, run at boot with nothing in the cache: exactly the writes of RecoverWrites. */
    method RecoverFromLog()
      requires LogOk(disk, start) && Traced() && cache == map[] && pinned == {}
      modifies this`cache, this`disk, this`trace, this`lh, this`pinned, this`base, this`clean, this`txs
      ensures Logged([]) && lh == [] && |disk| == |old(disk)| && EmptyLog(disk, start)
      ensures Serialised() && txs == [] && clean == disk && base == trace
      ensures trace == old(trace) + RecoverWrites(old(disk), start)
    {
      ghost var d := disk;
      ReadHead();
      Redo(true, LogData(disk, start), {});
      Recovered(boot, d, disk, start, old(trace), trace);
      base, clean, txs := trace, disk, [];
    }

    /** log_write on the buffer of block b, whose contents the caller has just replaced. */
    method LogWrite(b: int, contents: Block, ghost data: seq<Block>) returns (ghost data': seq<Block>)
      requires Logged(data) && 0 <= b < |disk| && !InLog(start, b) && |lh| < LOGBLOCKS
      modifies this`cache, this`lh, this`pinned
      ensures Logged(data') && cache == old(cache)[b := contents]
      ensures lh == if b in old(lh) then old(lh) else old(lh) + [b]
      ensures pinned == if b in old(lh) then old(pinned) else old(pinned) + {b}
    {
      cache := cache[b := contents];
      var i := 0;
      while i < |lh| && lh[i] != b
        invariant 0 <= i <= |lh| && b !in lh[..i]
      {
        i := i + 1;
      }
      if i == |lh| {
        LoggedNew(disk, old(cache), start, lh, data, b, contents);
        pinned := pinned + {b};
        lh := lh + [b];
        data' := data + [contents];
      } else {
        LoggedAgain(disk, old(cache), start, lh, data, i, contents);
        assert lh[i := b] == lh;
        lh := lh[i := b];
        data' := data[i := contents];
      }
    }
  }
}
