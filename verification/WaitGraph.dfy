/**
 Wait-for graphs in which every process waits for at most one other process.
 Both deadlock detectors of the kernel walk such a graph with a bound of NPROC steps; the
 facts here say when such a walk must repeat itself and when its bound is large enough.
 */
module WaitGraph {
  import opened Collections

  /** g[p] is the process that p waits for, if any. */
  type Graph = seq<Option<nat>>

  predicate WellFormed(g: Graph) {
    forall p :: 0 <= p < |g| && g[p].Some? ==> g[p].value < |g|
  }

  ghost predicate IsChain(g: Graph, path: seq<nat>) {
    && |path| > 0
    && (forall i :: 0 <= i < |path| ==> path[i] < |g|)
    && (forall i, j :: 0 <= i && j == i + 1 && j < |path| ==> g[path[i]] == Some(path[j]))
  }

  /** A simple cycle, listed in waiting order. */
  ghost predicate IsCycle(g: Graph, c: seq<nat>) {
    IsChain(g, c) && Distinct(c) && g[c[|c| - 1]] == Some(c[0])
  }

  ghost predicate OnCycle(g: Graph, p: nat) {
    exists c :: IsCycle(g, c) && p in c
  }

  ghost predicate HasCycle(g: Graph) {
    exists c :: IsCycle(g, c)
  }

  ghost predicate ChainBetween(g: Graph, path: seq<nat>, a: nat, b: nat) {
    IsChain(g, path) && path[0] == a && path[|path| - 1] == b
  }

  ghost predicate Reaches(g: Graph, a: nat, b: nat) {
    exists path :: ChainBetween(g, path, a, b)
  }

  lemma Pigeonhole(path: seq<nat>, n: nat)
    requires Distinct(path)
    requires forall i :: 0 <= i < |path| ==> path[i] < n
    ensures |path| <= n
  {
    MembersSize(path);
    RangeSize(0, n);
    SubsetSize(Members(path), Range(0, n));
  }

  /** Whoever is on a cycle waits for somebody on the same cycle. */
  lemma OnCycleNext(g: Graph, p: nat)
    requires OnCycle(g, p)
    ensures p < |g| && g[p].Some? && OnCycle(g, g[p].value)
  {
    var c :| IsCycle(g, c) && p in c;
    var i :| 0 <= i < |c| && c[i] == p;
    if i + 1 < |c| {
      assert c[i + 1] in c;
    } else {
      assert c[0] in c;
    }
  }

  /** The cycle c listed from the successor of c[i] to c[i]. */
  function Turned(c: seq<nat>, i: nat): (path: seq<nat>)
    requires i < |c|
    ensures |path| == |c|
  {
    c[i + 1..] + c[..i + 1]
  }

  /** Links of the listing that lie before the end of c, */
  lemma EarlyLink(g: Graph, c: seq<nat>, i: nat, k: nat)
    requires IsCycle(g, c) && i < |c| && k + 1 < |c| - i - 1
    ensures Turned(c, i)[k] < |g| && g[Turned(c, i)[k]] == Some(Turned(c, i)[k + 1])
  {
    assert Turned(c, i)[k] == c[i + 1 + k] && Turned(c, i)[k + 1] == c[i + 2 + k];
  }

  /** and at or behind it. */
  lemma LateLink(g: Graph, c: seq<nat>, i: nat, k: nat)
    requires IsCycle(g, c) && i < |c| && |c| - i - 1 <= k + 1 < |c|
    ensures Turned(c, i)[k] < |g| && g[Turned(c, i)[k]] == Some(Turned(c, i)[k + 1])
  {
    var j := k + 1 - (|c| - i - 1);
    assert Turned(c, i)[k + 1] == c[j];
    assert Turned(c, i)[k] == if j == 0 then c[|c| - 1] else c[j - 1];
  }

  /** Whoever is on a cycle can be reached from the process it waits for. */
  lemma CycleReturns(g: Graph, p: nat)
    requires OnCycle(g, p)
    ensures p < |g| && g[p].Some? && Reaches(g, g[p].value, p)
  {
    OnCycleNext(g, p);
    var c :| IsCycle(g, c) && p in c;
    var i :| 0 <= i < |c| && c[i] == p;
    var path := Turned(c, i);
    forall k, j | 0 <= k && j == k + 1 && j < |path| ensures g[path[k]] == Some(path[j]) {
      if j < |c| - i - 1 {
        EarlyLink(g, c, i, k);
      } else {
        LateLink(g, c, i, k);
      }
    }
    assert ChainBetween(g, path, g[p].value, p);
  }

  /** A chain whose last member waits for one of its members closes a simple cycle from there on. */
  lemma ClosingChain(g: Graph, path: seq<nat>, i: nat)
    requires IsChain(g, path) && Distinct(path)
    requires i < |path| && g[path[|path| - 1]] == Some(path[i])
    ensures IsCycle(g, path[i..])
  {
  }

  /**
   Somebody who waits for the first member of a simple chain that ends in themselves is on a cycle with the others.
   */
  lemma ChainBack(g: Graph, me: nat, chain: seq<nat>)
    requires IsChain(g, chain) && Distinct(chain) && chain[|chain| - 1] == me && g[me] == Some(chain[0])
    ensures IsCycle(g, [me] + chain[..|chain| - 1])
  {
    var cycle := [me] + chain[..|chain| - 1];
    forall i, j | 0 <= i && j == i + 1 && j < |cycle| ensures g[cycle[i]] == Some(cycle[j]) {
      if i > 0 {
        assert cycle[i] == chain[i - 1] && cycle[j] == chain[i];
      }
    }
    if |chain| > 1 {
      assert g[chain[|chain| - 2]] == Some(chain[|chain| - 1]);
    }
  }

  /** Two chains with the same start agree as far as the shorter one goes. */
  lemma {:induction false} ChainsAgree(g: Graph, a: seq<nat>, b: seq<nat>, k: nat)
    requires IsChain(g, a) && IsChain(g, b) && a[0] == b[0]
    requires k < |a| && k < |b|
    ensures a[k] == b[k]
  {
    if k > 0 {
      ChainsAgree(g, a, b, k - 1);
    }
  }

  /** Reachability never needs a chain that visits anybody twice. */
  lemma {:induction false} Shorten(g: Graph, path: seq<nat>, a: nat, b: nat) returns (short: seq<nat>)
    requires ChainBetween(g, path, a, b)
    ensures ChainBetween(g, short, a, b) && Distinct(short)
    decreases |path|
  {
    if Distinct(path) {
      short := path;
    } else {
      var i, j :| 0 <= i < j < |path| && path[i] == path[j];
      short := Shorten(g, path[..i] + path[j..], a, b);
    }
  }

  /** A walk of at least |g| steps that misses b shows that b is out of reach. */
  lemma LongWalkMisses(g: Graph, walk: seq<nat>, b: nat)
    requires IsChain(g, walk) && |walk| >= |g|
    requires b !in walk
    ensures !Reaches(g, walk[0], b)
  {
    if Reaches(g, walk[0], b) {
      var path :| ChainBetween(g, path, walk[0], b);
      var short := Shorten(g, path, walk[0], b);
      Pigeonhole(short, |g|);
      ChainsAgree(g, short, walk, |short| - 1);
    }
  }

  /** A walk that ends at somebody who waits for nobody shows that nothing off the walk is reachable. */
  lemma EndedWalkMisses(g: Graph, walk: seq<nat>, b: nat)
    requires IsChain(g, walk) && g[walk[|walk| - 1]].None?
    requires b !in walk
    ensures !Reaches(g, walk[0], b)
  {
    if Reaches(g, walk[0], b) {
      var path :| ChainBetween(g, path, walk[0], b);
      if |path| <= |walk| {
        ChainsAgree(g, path, walk, |path| - 1);
      } else {
        assert g[path[|walk| - 1]] == Some(path[|walk|]);
        ChainsAgree(g, path, walk, |walk| - 1);
      }
    }
  }
}
