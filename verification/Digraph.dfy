/** Finite directed graphs as adjacency maps, and walks counted by their edges. */
module Digraph {

  /** The successors of a node; a node the map does not mention has none. */
  function Succ<K>(g: map<K, set<K>>, a: K): set<K>
  {
    if a in g then g[a] else {}
  }

  /** Some walk of exactly n edges leads from a to b. */
  ghost predicate Walk<K(!new)>(g: map<K, set<K>>, a: K, b: K, n: nat)
  {
    if n == 0 then a == b else exists m :: m in Succ(g, a) && Walk(g, m, b, n - 1)
  }

  ghost predicate Reaches<K(!new)>(g: map<K, set<K>>, a: K, b: K)
  {
    exists n: nat :: Walk(g, a, b, n)
  }

  /** No walk returns to the node it left. */
  ghost predicate Acyclic<K(!new)>(g: map<K, set<K>>)
  {
    forall k, n: nat :: Walk(g, k, k, n) ==> n == 0
  }

  /** Every edge of g is also an edge of h. */
  ghost predicate Included<K(!new)>(g: map<K, set<K>>, h: map<K, set<K>>)
  {
    forall a, b {:trigger b in Succ(g, a)} {:trigger b in Succ(h, a)} :: b in Succ(g, a) ==> b in Succ(h, a)
  }

  lemma {:induction false} Join<K(!new)>(g: map<K, set<K>>, a: K, b: K, c: K, m: nat, n: nat)
    requires Walk(g, a, b, m) && Walk(g, b, c, n)
    ensures Walk(g, a, c, m + n)
    decreases m
  {
    if m > 0 {
      var x :| x in Succ(g, a) && Walk(g, x, b, m - 1);
      Join(g, x, b, c, m - 1, n);
      assert Walk(g, x, c, m + n - 1);
    }
  }

  /** A walk can be extended at its far end. */
  lemma {:induction false} Extend<K(!new)>(g: map<K, set<K>>, a: K, b: K, c: K, n: nat)
    requires Walk(g, a, b, n) && c in Succ(g, b)
    ensures Walk(g, a, c, n + 1)
  {
    assert Walk(g, c, c, 0);
    assert Walk(g, b, c, 1);
    Join(g, a, b, c, n, 1);
  }

  /** A walk with at least one edge has a last edge. */
  lemma {:induction false} LastEdge<K(!new)>(g: map<K, set<K>>, a: K, c: K, n: nat) returns (b: K)
    requires n > 0 && Walk(g, a, c, n)
    ensures Walk(g, a, b, n - 1) && c in Succ(g, b)
    decreases n
  {
    var x :| x in Succ(g, a) && Walk(g, x, c, n - 1);
    if n == 1 {
      b := a;
    } else {
      b := LastEdge(g, x, c, n - 1);
      assert Walk(g, x, b, n - 2);
    }
  }

  lemma {:induction false} Monotone<K(!new)>(g: map<K, set<K>>, h: map<K, set<K>>, a: K, b: K, n: nat)
    requires Included(g, h) && Walk(g, a, b, n)
    ensures Walk(h, a, b, n)
    decreases n
  {
    if n > 0 {
      var x :| x in Succ(g, a) && Walk(g, x, b, n - 1);
      Monotone(g, h, x, b, n - 1);
    }
  }

  lemma {:induction false} MonotoneReach<K(!new)>(g: map<K, set<K>>, h: map<K, set<K>>, a: K, b: K)
    requires Included(g, h) && Reaches(g, a, b)
    ensures Reaches(h, a, b)
  {
    var n: nat :| Walk(g, a, b, n);
    Monotone(g, h, a, b, n);
  }

  /** Walks from a set closed under edges stay in it, and spend at least one unit of a falling rank per edge. */
  lemma {:induction false} RankFalls<K(!new)>(g: map<K, set<K>>, s: set<K>, rank: map<K, nat>, a: K, b: K, n: nat)
    requires s <= rank.Keys
    requires forall x, y {:trigger y in Succ(g, x)} :: x in s && y in Succ(g, x) ==> y in s && rank[y] < rank[x]
    requires a in s && Walk(g, a, b, n)
    ensures b in s && rank[b] + n <= rank[a]
    decreases n
  {
    if n > 0 {
      var x :| x in Succ(g, a) && Walk(g, x, b, n - 1);
      RankFalls(g, s, rank, x, b, n - 1);
    }
  }

  lemma {:induction false} StaysInside<K(!new)>(g: map<K, set<K>>, s: set<K>, a: K, b: K, n: nat)
    requires forall x, y {:trigger y in Succ(g, x)} :: x in s && y in Succ(g, x) ==> y in s
    requires a in s && Walk(g, a, b, n)
    ensures b in s
    decreases n
  {
    if n > 0 {
      var x :| x in Succ(g, a) && Walk(g, x, b, n - 1);
      StaysInside(g, s, x, b, n - 1);
    }
  }

  /** A cycle can be followed as often as one likes. */
  lemma {:induction false} Pump<K(!new)>(g: map<K, set<K>>, a: K, n: nat, times: nat)
    requires Walk(g, a, a, n)
    ensures Walk(g, a, a, n * times)
    decreases times
  {
    if times == 0 {
      assert n * times == 0;
    } else {
      Pump(g, a, n, times - 1);
      Join(g, a, a, a, n, n * (times - 1));
      assert n + n * (times - 1) == n * times;
    }
  }

  /** When walks from a have bounded length, no cycle is reachable from a. */
  lemma {:induction false} BoundedIsAcyclic<K(!new)>(g: map<K, set<K>>, a: K, k: K, n: nat, bound: nat)
    requires forall b, m: nat :: Walk(g, a, b, m) ==> m <= bound
    requires Reaches(g, a, k) && Walk(g, k, k, n)
    ensures n == 0
  {
    if n > 0 {
      var d: nat :| Walk(g, a, k, d);
      Pump(g, k, n, bound + 1);
      MulGrows(n, bound + 1);
      Join(g, a, k, k, d, n * (bound + 1));
    }
  }

  lemma {:induction false} MulGrows(n: nat, m: nat)
    requires n >= 1
    ensures n * m >= m
  {
    assert n * m == (n - 1) * m + m;
  }

  lemma {:induction false} ReachesItself<K(!new)>(g: map<K, set<K>>, a: K)
    ensures Reaches(g, a, a)
  {
    assert Walk(g, a, a, 0);
  }

  lemma {:induction false} ReachExtends<K(!new)>(g: map<K, set<K>>, a: K, b: K, c: K)
    requires Reaches(g, a, b) && c in Succ(g, b)
    ensures Reaches(g, a, c)
  {
    var n: nat :| Walk(g, a, b, n);
    Extend(g, a, b, c, n);
  }

  lemma {:induction false} ReachJoins<K(!new)>(g: map<K, set<K>>, a: K, b: K, c: K)
    requires Reaches(g, a, b) && Reaches(g, b, c)
    ensures Reaches(g, a, c)
  {
    var m: nat :| Walk(g, a, b, m);
    var n: nat :| Walk(g, b, c, n);
    Join(g, a, b, c, m, n);
  }

  /** A sequence without repetition has as many entries as distinct elements. */
  lemma {:induction false} DistinctCount<K>(p: seq<K>)
    requires forall i, j :: 0 <= i < j < |p| ==> p[i] != p[j]
    ensures |set x | x in p| == |p|
  {
    if p == [] {
      assert (set x | x in p) == {};
    } else {
      var rest := p[..|p| - 1];
      DistinctCount(rest);
      assert (set x | x in p) == (set x | x in rest) + {p[|p| - 1]};
    }
  }

  lemma {:induction false} SameSize<K>(a: set<K>, b: set<K>)
    requires a <= b && |a| == |b|
    ensures a == b
  {
    assert b == a + (b - a);
    assert |b - a| == 0;
  }

  lemma {:induction false} SubsetCount<K>(a: set<K>, b: set<K>)
    requires a <= b
    ensures |a| <= |b|
  {
    assert b == a + (b - a);
  }

  ghost predicate HasPredecessor<K>(g: map<K, set<K>>, s: set<K>, x: K)
  {
    exists y :: y in s && x in Succ(g, y)
  }

  /** Backward path of n edges inside s: each entry precedes the one before it. */
  lemma {:induction false} BackwardPath<K(!new)>(g: map<K, set<K>>, s: set<K>, a: K, n: nat) returns (p: seq<K>)
    requires a in s
    requires forall x {:trigger HasPredecessor(g, s, x)} :: x in s ==> HasPredecessor(g, s, x)
    ensures |p| == n + 1
    ensures forall i :: 0 <= i <= n ==> p[i] in s
    ensures forall i :: 0 <= i < n ==> p[i] in Succ(g, p[i + 1])
    decreases n
  {
    p := [a];
    if n > 0 {
      var q := BackwardPath(g, s, a, n - 1);
      var last := q[n - 1];
      assert HasPredecessor(g, s, last);
      var y :| y in s && last in Succ(g, y);
      p := q + [y];
      forall i | 0 <= i < n
        ensures p[i] in Succ(g, p[i + 1])
      {
        if i == n - 1 {
          assert p[i] == last && p[i + 1] == y;
        } else {
          assert p[i] == q[i] && p[i + 1] == q[i + 1];
        }
      }
    }
  }

  lemma {:induction false} BackwardWalk<K(!new)>(g: map<K, set<K>>, p: seq<K>, i: nat, j: nat)
    requires i <= j < |p|
    requires forall k :: 0 <= k < |p| - 1 ==> p[k] in Succ(g, p[k + 1])
    ensures Walk(g, p[j], p[i], j - i)
    decreases j - i
  {
    if i < j {
      BackwardWalk(g, p, i, j - 1);
    }
  }

  /** A nonempty finite set in which every node has a predecessor contains a cycle. */
  lemma {:induction false} NoSourceHasCycle<K(!new)>(g: map<K, set<K>>, s: set<K>)
    requires s != {}
    requires forall x {:trigger HasPredecessor(g, s, x)} :: x in s ==> HasPredecessor(g, s, x)
    ensures !Acyclic(g)
  {
    var a :| a in s;
    var p := BackwardPath(g, s, a, |s|);
    if forall i, j :: 0 <= i < j < |p| ==> p[i] != p[j] {
      DistinctCount(p);
      SubsetCount((set x | x in p), s);
      assert false;
    } else {
      var i, j :| 0 <= i < j < |p| && p[i] == p[j];
      BackwardWalk(g, p, i, j);
      assert Walk(g, p[i], p[i], j - i);
    }
  }

  /** A rank that falls along every edge rules cycles out. */
  lemma {:induction false} RankIsAcyclic<K(!new)>(g: map<K, set<K>>, rank: map<K, nat>)
    requires forall x, y {:trigger y in Succ(g, x)} :: y in Succ(g, x) ==> x in rank && y in rank && rank[y] < rank[x]
    ensures Acyclic(g)
  {
    forall k, n: nat | Walk(g, k, k, n)
      ensures n == 0
    {
      if n > 0 {
        RankFallsOnCycle(g, rank, k, n);
      }
    }
  }

  lemma {:induction false} RankFallsOnCycle<K(!new)>(g: map<K, set<K>>, rank: map<K, nat>, k: K, n: nat)
    requires forall x, y {:trigger y in Succ(g, x)} :: y in Succ(g, x) ==> x in rank && y in rank && rank[y] < rank[x]
    requires Walk(g, k, k, n)
    ensures n == 0
  {
    if n > 0 {
      var x :| x in Succ(g, k) && Walk(g, x, k, n - 1);
      assert k in rank;
      RankFalls(g, rank.Keys, rank, k, k, n);
    }
  }

  ghost predicate HasSuccessor<K>(g: map<K, set<K>>, s: set<K>, x: K)
  {
    exists y :: y in s && y in Succ(g, x)
  }

  lemma {:induction false} ForwardWalk<K(!new)>(g: map<K, set<K>>, p: seq<K>, i: nat, j: nat)
    requires i <= j < |p|
    requires forall k :: 0 <= k < |p| - 1 ==> p[k + 1] in Succ(g, p[k])
    ensures Walk(g, p[i], p[j], j - i)
    decreases j - i
  {
    if i < j {
      ForwardWalk(g, p, i + 1, j);
    }
  }

  /** Path of n edges inside s. */
  lemma {:induction false} ForwardPath<K(!new)>(g: map<K, set<K>>, s: set<K>, a: K, n: nat) returns (p: seq<K>)
    requires a in s
    requires forall x {:trigger HasSuccessor(g, s, x)} :: x in s ==> HasSuccessor(g, s, x)
    ensures |p| == n + 1 && p[0] == a
    ensures forall i :: 0 <= i <= n ==> p[i] in s
    ensures forall i :: 0 <= i < n ==> p[i + 1] in Succ(g, p[i])
    decreases n
  {
    if n == 0 {
      p := [a];
    } else {
      assert HasSuccessor(g, s, a);
      var y :| y in s && y in Succ(g, a);
      var q := ForwardPath(g, s, y, n - 1);
      p := [a] + q;
      forall i | 0 <= i < n
        ensures p[i + 1] in Succ(g, p[i])
      {
        if i == 0 {
          assert p[0] == a && p[1] == y;
        } else {
          assert p[i] == q[i - 1] && p[i + 1] == q[i];
        }
      }
    }
  }

  /** A nonempty finite set in which every node has a successor contains a cycle. */
  lemma {:induction false} CycleInside<K(!new)>(g: map<K, set<K>>, s: set<K>) returns (k: K, n: nat)
    requires s != {}
    requires forall x {:trigger HasSuccessor(g, s, x)} :: x in s ==> HasSuccessor(g, s, x)
    ensures k in s && n > 0 && Walk(g, k, k, n)
  {
    var a :| a in s;
    var p := ForwardPath(g, s, a, |s|);
    if forall i, j :: 0 <= i < j < |p| ==> p[i] != p[j] {
      DistinctCount(p);
      SubsetCount((set x | x in p), s);
      assert false;
    } else {
      var i, j :| 0 <= i < j < |p| && p[i] == p[j];
      ForwardWalk(g, p, i, j);
      k, n := p[i], j - i;
    }
  }

  lemma {:induction false} NoSinkHasCycle<K(!new)>(g: map<K, set<K>>, s: set<K>)
    requires s != {}
    requires forall x {:trigger HasSuccessor(g, s, x)} :: x in s ==> HasSuccessor(g, s, x)
    ensures !Acyclic(g)
  {
    var k, n := CycleInside(g, s);
    assert Walk(g, k, k, n);
  }
}
