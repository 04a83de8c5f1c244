/**
 The doubly linked list of the buffer cache: binit, bget's two scans and brelse's move to the front.
 Every buffer carries the time at which it was last put at the front; the list is in decreasing order
 of these times, so bget recycles the buffer that was released longest ago.
 */
module LruList {
  import opened Collections
  import opened Params

  const HEAD := -1

  /** The time of a list node; the head counts as newest. */
  function Time(stamp: seq<int>, clock: int, x: int): int {
    if 0 <= x < |stamp| then stamp[x] else clock
  }

  /** y follows x: the newest of the older members, or the head if x is the oldest. */
  ghost predicate IsNext(on: set<int>, stamp: seq<int>, clock: int, x: int, y: int) {
    && (y in on || y == HEAD)
    && (y != HEAD ==> Time(stamp, clock, y) < Time(stamp, clock, x))
    && forall z :: z in on ==>
       Time(stamp, clock, z) >= Time(stamp, clock, x) || (y != HEAD && Time(stamp, clock, z) <= Time(stamp, clock, y))
  }

  ghost predicate LinkedAt(next: map<int, int>, prev: map<int, int>, on: set<int>, stamp: seq<int>, clock: int,
                           x: int) {
    && x in next && IsNext(on, stamp, clock, x, next[x]) && next[x] in prev && prev[next[x]] == x
    && x in prev && (prev[x] in on || prev[x] == HEAD) && prev[x] in next && next[prev[x]] == x
  }

  /** The head and the members form a ring in decreasing order of time. */
  ghost predicate Ring(next: map<int, int>, prev: map<int, int>, on: set<int>, stamp: seq<int>, clock: int) {
    forall x {:trigger LinkedAt(next, prev, on, stamp, clock, x)} :: x in on || x == HEAD ==>
      LinkedAt(next, prev, on, stamp, clock, x)
  }

  /** Members are buffers, with different times below the clock. */
  ghost predicate Stamped(on: set<int>, stamp: seq<int>, clock: int) {
    && 0 <= clock
    && (forall x :: x in on ==> 0 <= x < |stamp| && 0 <= stamp[x] < clock)
    && (forall x, y :: x in on && y in on && x != y ==> stamp[x] != stamp[y])
  }

  lemma Unlink(next: map<int, int>, prev: map<int, int>, on: set<int>, stamp: seq<int>, clock: int, b: int)
    requires Ring(next, prev, on, stamp, clock) && Stamped(on, stamp, clock) && b in on
    requires LinkedAt(next, prev, on, stamp, clock, b)
    ensures Ring(next[prev[b] := next[b]], prev[next[b] := prev[b]], on - {b}, stamp, clock)
  {
    var next', prev', on' := next[prev[b] := next[b]], prev[next[b] := prev[b]], on - {b};
    assert LinkedAt(next, prev, on, stamp, clock, prev[b]) && LinkedAt(next, prev, on, stamp, clock, next[b]);
    forall x | x in on' || x == HEAD
      ensures LinkedAt(next', prev', on', stamp, clock, x)
    {
      assert LinkedAt(next, prev, on, stamp, clock, x);
    }
  }

  /** A new newest member changes no order among the others. */
  lemma OrderKept(on: set<int>, stamp: seq<int>, clock: int, b: int, x: int, y: int)
    requires Stamped(on, stamp, clock) && b !in on && 0 <= b < |stamp| && x in on && IsNext(on, stamp, clock, x, y)
    ensures IsNext(on + {b}, stamp[b := clock], clock + 1, x, y)
  {
    var on', stamp' := on + {b}, stamp[b := clock];
    forall z | z in on'
      ensures Time(stamp', clock + 1, z) >= Time(stamp', clock + 1, x) ||
              (y != HEAD && Time(stamp', clock + 1, z) <= Time(stamp', clock + 1, y))
    {
      assert z in on ==>
             Time(stamp, clock, z) >= Time(stamp, clock, x) ||
             (y != HEAD && Time(stamp, clock, z) <= Time(stamp, clock, y));
    }
  }

  lemma FirstTwo(on: set<int>, stamp: seq<int>, clock: int, b: int, f: int)
    requires Stamped(on, stamp, clock) && b !in on && 0 <= b < |stamp| && IsNext(on, stamp, clock, HEAD, f)
    ensures IsNext(on + {b}, stamp[b := clock], clock + 1, HEAD, b)
    ensures IsNext(on + {b}, stamp[b := clock], clock + 1, b, f)
  {
  }

  lemma PushFront(next: map<int, int>, prev: map<int, int>, on: set<int>, stamp: seq<int>, clock: int, b: int)
    requires Ring(next, prev, on, stamp, clock) && Stamped(on, stamp, clock) && b !in on && 0 <= b < |stamp|
    requires LinkedAt(next, prev, on, stamp, clock, HEAD)
    ensures Ring(next[b := next[HEAD]][HEAD := b], prev[b := HEAD][next[HEAD] := b], on + {b}, stamp[b := clock],
            clock + 1)
    ensures Stamped(on + {b}, stamp[b := clock], clock + 1)
  {
    var next', prev', on', stamp' := next[b := next[HEAD]][HEAD := b], prev[b := HEAD][next[HEAD] := b], on + {b},
        stamp[b := clock];
    FirstTwo(on, stamp, clock, b, next[HEAD]);
    forall x | x in on' || x == HEAD
      ensures LinkedAt(next', prev', on', stamp', clock + 1, x)
    {
      if x in on {
        assert LinkedAt(next, prev, on, stamp, clock, x);
        OrderKept(on, stamp, clock, b, x, next[x]);
      }
    }
  }

  class Cache {
    const nbuf: int
    var next: map<int, int>
    var prev: map<int, int>
    var key: seq<Key>
    var valid: seq<bool>
    var refcnt: seq<int>
    ghost var stamp: seq<int>
    ghost var clock: int

    ghost predicate Valid()
      reads this
    {
      && 0 <= nbuf == |key| == |valid| == |refcnt| == |stamp|
      && Stamped(Range(0, nbuf), stamp, clock) && Ring(next, prev, Range(0, nbuf), stamp, clock)
    }

    /** binit: each buffer in turn goes to the front of the list. */
    constructor (n: int)
      requires 0 <= n
      ensures Valid() && nbuf == n
      ensures forall i :: 0 <= i < n ==> key[i] == Key(0, 0) && refcnt[i] == 0 && !valid[i]
    {
      nbuf := n;
      key := seq(n, _ => Key(0, 0));
      valid := seq(n, _ => false);
      refcnt := seq(n, _ => 0);
      stamp := seq(n, _ => 0);
      clock := 0;
      next := map[HEAD := HEAD];
      prev := map[HEAD := HEAD];
      new;
      assert LinkedAt(next, prev, {}, stamp, clock, HEAD);
      ghost var on: set<int> := {};
      for b := 0 to n
        invariant |stamp| == |key| == |valid| == |refcnt| == n && on == Range(0, b)
        invariant forall i :: 0 <= i < n ==> key[i] == Key(0, 0) && refcnt[i] == 0 && !valid[i]
        invariant Stamped(on, stamp, clock) && Ring(next, prev, on, stamp, clock)
      {
        ToFront(b, on);
        on := on + {b};
      }
    }

    /** Link b in behind the head. */
    method ToFront(b: int, ghost on: set<int>)
      requires Stamped(on, stamp, clock) && Ring(next, prev, on, stamp, clock) && b !in on && 0 <= b < |stamp|
      modifies this`next, this`prev, this`stamp, this`clock
      ensures Stamped(on + {b}, stamp, clock) && Ring(next, prev, on + {b}, stamp, clock)
      ensures stamp == old(stamp)[b := old(clock)]
    {
      assert LinkedAt(next, prev, on, stamp, clock, HEAD);
      PushFront(next, prev, on, stamp, clock, b);
      next := next[b := next[HEAD]];
      prev := prev[b := HEAD];
      prev := prev[next[HEAD] := b];
      next := next[HEAD := b];
      stamp := stamp[b := clock];
      clock := clock + 1;
    }

    /** Take b out of the list. */
    method Detach(b: int, ghost on: set<int>)
      requires Stamped(on, stamp, clock) && Ring(next, prev, on, stamp, clock) && b in on
      modifies this`next, this`prev
      ensures Stamped(on - {b}, stamp, clock) && Ring(next, prev, on - {b}, stamp, clock)
    {
      assert LinkedAt(next, prev, on, stamp, clock, b);
      Unlink(next, prev, on, stamp, clock, b);
      prev := prev[next[b] := prev[b]];
      next := next[prev[b] := next[b]];
    }

    /** bget's first scan: the newest buffer that caches the block. */
    method FindCached(k: Key) returns (r: Option<int>)
      requires Valid()
      ensures r.Some? ==> 0 <= r.value < nbuf && key[r.value] == k
      ensures r.None? ==> forall i :: 0 <= i < nbuf ==> key[i] != k
    {
      assert LinkedAt(next, prev, Range(0, nbuf), stamp, clock, HEAD);
      var b := next[HEAD];
      while b != HEAD
        invariant b == HEAD || 0 <= b < nbuf
        invariant forall i :: i in Range(0, nbuf) && (b == HEAD || stamp[i] > stamp[b]) ==> key[i] != k
        decreases if b == HEAD then -1 else stamp[b]
      {
        if key[b] == k {
          return Some(b);
        }
        assert LinkedAt(next, prev, Range(0, nbuf), stamp, clock, b);
        b := next[b];
      }
      assert forall i :: 0 <= i < nbuf ==> i in Range(0, nbuf);
      return None;
    }

    /** bget's second scan: the buffer released longest ago among those that nobody uses. */
    method FindUnused() returns (r: Option<int>)
      requires Valid()
      ensures r.Some? ==> 0 <= r.value < nbuf && refcnt[r.value] == 0
      ensures r.Some? ==> forall i :: 0 <= i < nbuf && refcnt[i] == 0 ==> stamp[r.value] <= stamp[i]
      ensures r.None? ==> forall i :: 0 <= i < nbuf ==> refcnt[i] != 0
    {
      assert LinkedAt(next, prev, Range(0, nbuf), stamp, clock, HEAD);
      var b := prev[HEAD];
      if b != HEAD {
        assert LinkedAt(next, prev, Range(0, nbuf), stamp, clock, b);
      }
      while b != HEAD
        invariant b == HEAD || (0 <= b < nbuf && LinkedAt(next, prev, Range(0, nbuf), stamp, clock, b))
        invariant forall i :: i in Range(0, nbuf) && (b == HEAD || stamp[i] < stamp[b]) ==> refcnt[i] != 0
        decreases if b == HEAD then -1 else clock - stamp[b]
      {
        if refcnt[b] == 0 {
          assert forall i :: 0 <= i < nbuf ==> i in Range(0, nbuf);
          return Some(b);
        }
        var c := b;
        b := prev[b];
        assert LinkedAt(next, prev, Range(0, nbuf), stamp, clock, b);
        assert c == next[b];
      }
      assert forall i :: 0 <= i < nbuf ==> i in Range(0, nbuf);
      return None;
    }

    /** bget up to the acquisition of the buffer's sleep lock; None is the panic "no buffers". */
    method Bget(k: Key) returns (r: Option<int>)
      requires Valid()
      modifies this`key, this`valid, this`refcnt
      ensures Valid()
      ensures r.None? <==>
              (forall i :: 0 <= i < nbuf ==> old(key)[i] != k) && (forall i :: 0 <= i < nbuf ==> old(refcnt)[i] != 0)
      ensures r.None? ==> key == old(key) && valid == old(valid) && refcnt == old(refcnt)
      ensures r.Some? ==> 0 <= r.value < nbuf
      ensures r.Some? && old(key)[r.value] == k ==>
                key == old(key) && valid == old(valid) && refcnt == old(refcnt)[r.value := old(refcnt)[r.value] + 1]
      ensures r.Some? && old(key)[r.value] != k ==>
                && (forall i :: 0 <= i < nbuf ==> old(key)[i] != k)
                && old(refcnt)[r.value] == 0
                && (forall i :: 0 <= i < nbuf && old(refcnt)[i] == 0 ==> stamp[r.value] <= stamp[i])
                && key == old(key)[r.value := k] && valid == old(valid)[r.value := false] &&
                   refcnt == old(refcnt)[r.value := 1]
    {
      r := FindCached(k);
      if r.Some? {
        refcnt := refcnt[r.value := refcnt[r.value] + 1];
        return;
      }
      r := FindUnused();
      if r.Some? {
        key := key[r.value := k];
        valid := valid[r.value := false];
        refcnt := refcnt[r.value := 1];
      }
    }

    /** brelse, after the sleep lock is released: an unused buffer becomes the newest. */
    method Brelse(b: int)
      requires Valid() && 0 <= b < nbuf && refcnt[b] > 0
      modifies this`next, this`prev, this`refcnt, this`stamp, this`clock
      ensures Valid() && refcnt == old(refcnt)[b := old(refcnt)[b] - 1]
      ensures old(refcnt)[b] > 1 ==> stamp == old(stamp)
      ensures old(refcnt)[b] == 1 ==>
              stamp == old(stamp)[b := stamp[b]] && forall i :: 0 <= i < nbuf && i != b ==> stamp[i] < stamp[b]
    {
      refcnt := refcnt[b := refcnt[b] - 1];
      if refcnt[b] == 0 {
        ghost var on := Range(0, nbuf);
        Detach(b, on);
        ToFront(b, on - {b});
        assert on - {b} + {b} == on;
      }
    }
  }
}
