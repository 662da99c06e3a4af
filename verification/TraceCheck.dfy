/** The browser's independent check of a trace's graph: reachability, return paths, and Kahn's algorithm. */
module TraceCheck {
  import opened Products
  import opened Digraph
  import opened Lineage
  import opened TraceSpec
  import opened Bits

  // ---------------------------------------------------------------- adjacency lists

  /** The targets of the resolved edges of one consumer, in edge order, with repetitions. */
  function ResolvedTargets(edges: seq<Edge>, from: Key): seq<Key>
  {
    if edges == [] then []
    else
      var last := edges[|edges| - 1];
      ResolvedTargets(edges[..|edges| - 1], from) +
      if last.state == Resolved && last.from == from then [last.to] else []
  }

  /** The listed targets of one consumer's edges, whatever their state. */
  function ListedTargets(edges: seq<Edge>, keys: set<Key>, from: Key): seq<Key>
  {
    if edges == [] then []
    else
      var last := edges[|edges| - 1];
      ListedTargets(edges[..|edges| - 1], keys, from) + if last.to in keys && last.from == from then [last.to] else []
  }

  /** The resolved edges into k from products that are not done. */
  function CountInto(edges: seq<Edge>, k: Key, done: set<Key>): nat
  {
    if edges == [] then 0
    else
      var last := edges[|edges| - 1];
      CountInto(edges[..|edges| - 1], k, done) +
      if last.state == Resolved && last.to == k && last.from !in done then 1 else 0
  }

  lemma {:induction false} TargetsAreLinks(edges: seq<Edge>, from: Key, to: Key)
    ensures to in ResolvedTargets(edges, from) <==> ResolvedLink(edges, from, to)
    decreases |edges|
  {
    if edges != [] {
      var front, last := edges[..|edges| - 1], edges[|edges| - 1];
      TargetsAreLinks(front, from, to);
      assert edges == front + [last];
      if ResolvedLink(front, from, to) {
        var e :| e in front && e.from == from && e.to == to && e.state == Resolved;
        assert e in edges;
      }
    }
  }

  lemma {:induction false} ListedAreLinks(edges: seq<Edge>, keys: set<Key>, from: Key, to: Key)
    ensures to in ListedTargets(edges, keys, from) <==> ReferenceLink(edges, keys, from, to)
    decreases |edges|
  {
    if edges != [] {
      var front, last := edges[..|edges| - 1], edges[|edges| - 1];
      ListedAreLinks(front, keys, from, to);
      assert edges == front + [last];
      if ReferenceLink(front, keys, from, to) {
        var e :| e in front && e.from == from && e.to == to;
        assert e in edges;
      }
    }
  }

  /** Finishing one more product discounts exactly its edges. */
  lemma {:induction false} CountSplits(edges: seq<Edge>, k: Key, done: set<Key>, from: Key)
    requires from !in done
    ensures CountInto(edges, k, done) == CountInto(edges, k, done + {from}) + multiset(ResolvedTargets(edges, from))[k]
    decreases |edges|
  {
    if edges != [] {
      CountSplits(edges[..|edges| - 1], k, done, from);
    }
  }

  lemma {:induction false} CountZero(edges: seq<Edge>, k: Key, done: set<Key>)
    ensures CountInto(edges, k, done) == 0 <==> forall from :: ResolvedLink(edges, from, k) ==> from in done
    decreases |edges|
  {
    if edges != [] {
      var front, last := edges[..|edges| - 1], edges[|edges| - 1];
      CountZero(front, k, done);
      assert edges == front + [last];
      if forall from :: ResolvedLink(edges, from, k) ==> from in done {
        forall from | ResolvedLink(front, from, k)
          ensures from in done
        {
          assert ResolvedLink(edges, from, k);
        }
        if last.state == Resolved && last.to == k {
          assert ResolvedLink(edges, last.from, k);
        }
      } else {
        var from :| ResolvedLink(edges, from, k) && from !in done;
        if !(last.state == Resolved && last.to == k && last.from == from) {
          assert ResolvedLink(front, from, k);
        }
      }
    }
  }

  /** What the caller has checked about a trace before its graph is examined. */
  ghost predicate Shaped(t: Trace, observed: set<Key>, keys: set<Key>)
  {
    && keys == Keys(t) && observed <= keys && t.root in observed
    && (forall e {:trigger e in t.edges} :: e in t.edges ==> ShapedEdge(observed, e))
  }

  predicate ShapedEdge(observed: set<Key>, e: Edge)
  {
    e.from in observed && 1 <= e.depth <= MAX_TRACE_DEPTH && (e.state == Resolved ==> e.to in observed)
  }

  // ---------------------------------------------------------------- one pass over the edges

  ghost predicate DepthsAgree(edges: seq<Edge>)
  {
    forall e, f :: e in edges && f in edges && e.from == f.from ==> e.depth == f.depth
  }

  ghost predicate EmittedBy(edges: seq<Edge>, k: Key)
  {
    exists e :: e in edges && e.from == k
  }

  ghost predicate Emitted(edges: seq<Edge>, emitted: map<Key, nat>)
  {
    && (forall e {:trigger e in edges} :: e in edges ==> e.from in emitted && emitted[e.from] == e.depth)
    && (forall k {:trigger EmittedBy(edges, k)} {:trigger k in emitted} :: k in emitted ==> EmittedBy(edges, k))
  }

  lemma {:induction false} EmittedStep(edges: seq<Edge>, e: Edge, emitted: map<Key, nat>)
    requires Emitted(edges, emitted) && (e.from in emitted ==> emitted[e.from] == e.depth)
    ensures Emitted(edges + [e], emitted[e.from := e.depth])
  {
    var next := emitted[e.from := e.depth];
    forall k | k in next
      ensures EmittedBy(edges + [e], k)
    {
      if k in emitted {
        var f :| f in edges && f.from == k;
        assert f in edges + [e];
      } else {
        assert e in edges + [e];
      }
    }
  }

  lemma {:induction false} EmittedConflict(all: seq<Edge>, i: nat, emitted: map<Key, nat>)
    requires i < |all| && Emitted(all[..i], emitted)
    requires all[i].from in emitted && emitted[all[i].from] != all[i].depth
    ensures !DepthsAgree(all)
  {
    assert EmittedBy(all[..i], all[i].from);
    var f :| f in all[..i] && f.from == all[i].from;
    assert f in all && all[i] in all && f.depth != all[i].depth;
  }

  ghost predicate ReferenceTable(edges: seq<Edge>, keys: set<Key>, references: map<Key, seq<Key>>)
  {
    references.Keys == keys
    && forall k {:trigger references[k]} :: k in keys ==> references[k] == ListedTargets(edges, keys, k)
  }

  ghost predicate UpstreamTable(edges: seq<Edge>, observed: set<Key>, upstream: map<Key, seq<Key>>)
  {
    upstream.Keys == observed
    && forall k {:trigger upstream[k]} :: k in observed ==> upstream[k] == ResolvedTargets(edges, k)
  }

  ghost predicate IncomingTable(edges: seq<Edge>, observed: set<Key>, done: set<Key>, incoming: map<Key, nat>)
  {
    incoming.Keys == observed
    && forall k {:trigger incoming[k]} :: k in observed ==> incoming[k] == CountInto(edges, k, done)
  }

  lemma {:induction false} ReferenceStep(edges: seq<Edge>, e: Edge, keys: set<Key>, references: map<Key, seq<Key>>)
    requires ReferenceTable(edges, keys, references) && e.from in keys
    ensures ReferenceTable(edges + [e], keys,
                           if e.to in keys then references[e.from := references[e.from] + [e.to]] else references)
  {
    assert (edges + [e])[..|edges|] == edges;
  }

  lemma {:induction false} UpstreamStep(edges: seq<Edge>, e: Edge, observed: set<Key>, upstream: map<Key, seq<Key>>)
    requires UpstreamTable(edges, observed, upstream) && e.from in observed
    ensures UpstreamTable(edges + [e], observed,
                          if e.state == Resolved then upstream[e.from := upstream[e.from] + [e.to]] else upstream)
  {
    assert (edges + [e])[..|edges|] == edges;
  }

  lemma {:induction false} IncomingStep(edges: seq<Edge>, e: Edge, observed: set<Key>, incoming: map<Key, nat>)
    requires IncomingTable(edges, observed, {}, incoming) && (e.state == Resolved ==> e.to in observed)
    ensures IncomingTable(edges + [e], observed, {},
                          if e.state == Resolved then incoming[e.to := incoming[e.to] + 1] else incoming)
  {
    assert (edges + [e])[..|edges|] == edges;
  }

  /** Build the adjacency lists and in-degrees; stop at a consumer with two depths. */
  method Tabulate(t: Trace, observed: set<Key>, keys: set<Key>)
    returns (ok: bool, references: map<Key, seq<Key>>, upstream: map<Key, seq<Key>>, incoming: map<Key, nat>)
    requires Shaped(t, observed, keys)
    ensures ok <==> DepthsAgree(t.edges)
    ensures ok ==> ReferenceTable(t.edges, keys, references) && UpstreamTable(t.edges, observed, upstream)
    ensures ok ==> IncomingTable(t.edges, observed, {}, incoming)
  {
    hide *;
    references := map k | k in keys :: [];
    upstream := map k | k in observed :: [];
    incoming := map k | k in observed :: 0;
    var emitted: map<Key, nat> := map[];
    StartTables(observed, keys, references, upstream, incoming);
    ShapedParts(t, observed, keys);
    var i := 0;
    while i < |t.edges|
      invariant i <= |t.edges|
      invariant Emitted(t.edges[..i], emitted)
      invariant references.Keys == keys && ReferenceTable(t.edges[..i], keys, references)
      invariant upstream.Keys == observed && UpstreamTable(t.edges[..i], observed, upstream)
      invariant incoming.Keys == observed && IncomingTable(t.edges[..i], observed, {}, incoming)
    {
      var e := t.edges[i];
      assert t.edges[..i + 1] == t.edges[..i] + [e];
      if e.from in emitted && emitted[e.from] != e.depth {
        EmittedConflict(t.edges, i, emitted);
        return false, references, upstream, incoming;
      }
      EmittedStep(t.edges[..i], e, emitted);
      ReferenceStep(t.edges[..i], e, keys, references);
      UpstreamStep(t.edges[..i], e, observed, upstream);
      IncomingStep(t.edges[..i], e, observed, incoming);
      emitted := emitted[e.from := e.depth];
      if e.to in keys {
        references := references[e.from := references[e.from] + [e.to]];
      }
      if e.state == Resolved {
        upstream := upstream[e.from := upstream[e.from] + [e.to]];
        incoming := incoming[e.to := incoming[e.to] + 1];
      }
      i := i + 1;
    }
    assert t.edges[..i] == t.edges;
    EmittedAgree(t.edges, emitted);
    ok := true;
  }

  lemma {:induction false} ShapedParts(t: Trace, observed: set<Key>, keys: set<Key>)
    requires Shaped(t, observed, keys)
    ensures observed <= keys
    ensures forall i {:trigger t.edges[i]} :: 0 <= i < |t.edges| ==>
              t.edges[i].from in observed && (t.edges[i].state == Resolved ==> t.edges[i].to in observed)
  {
    hide Keys;
    forall i | 0 <= i < |t.edges|
      ensures ShapedEdge(observed, t.edges[i])
    {
      assert t.edges[i] in t.edges;
    }
  }

  lemma {:induction false} EmittedAgree(edges: seq<Edge>, emitted: map<Key, nat>)
    requires Emitted(edges, emitted)
    ensures DepthsAgree(edges)
  {
  }

  lemma {:induction false} StartTables(observed: set<Key>, keys: set<Key>, references: map<Key, seq<Key>>,
                                       upstream: map<Key, seq<Key>>,
                    incoming: map<Key, nat>)
    requires references == (map k | k in keys :: []) && upstream == (map k | k in observed :: [])
    requires incoming == map k | k in observed :: 0
    ensures ReferenceTable([], keys, references) && UpstreamTable([], observed, upstream) &&
            IncomingTable([], observed, {}, incoming)
    ensures Emitted([], map[])
  {
  }

  // ---------------------------------------------------------------- reachability

  ghost predicate Adjacent(links: map<Key, seq<Key>>, g: map<Key, set<Key>>)
  {
    forall a, b {:trigger b in Succ(g, a)} :: b in Succ(g, a) <==> a in links && b in links[a]
  }

  /** Everything found is reachable, and what is no longer pending has had its successors found. */
  ghost predicate Frontier(g: map<Key, set<Key>>, start: Key, queue: seq<Key>, index: nat, found: set<Key>)
    requires index <= |queue|
  {
    && start in found
    && (forall k {:trigger k in found} :: k in found <==> k in queue)
    && (forall k {:trigger Reaches(g, start, k)} :: k in found ==> Reaches(g, start, k))
    && (forall i, b {:trigger b in Succ(g, queue[i])} :: 0 <= i < index && b in Succ(g, queue[i]) ==> b in found)
    && (forall i, j :: 0 <= i < j < |queue| ==> queue[i] != queue[j])
  }

  /** A search without pending nodes has found everything reachable. */
  lemma {:induction false} FrontierDone(g: map<Key, set<Key>>, start: Key, queue: seq<Key>, found: set<Key>, k: Key)
    requires Frontier(g, start, queue, |queue|, found)
    ensures k in found <==> Reaches(g, start, k)
  {
    if Reaches(g, start, k) {
      var n: nat :| Walk(g, start, k, n);
      forall x, y | x in found && y in Succ(g, x)
        ensures y in found
      {
        assert x in queue;
        var i :| 0 <= i < |queue| && queue[i] == x;
        assert y in Succ(g, queue[i]);
      }
      StaysInside(g, found, start, k, n);
    }
  }

  lemma {:induction false} FrontierStart(g: map<Key, set<Key>>, start: Key)
    ensures Frontier(g, start, [start], 0, {start})
  {
    ReachesItself(g, start);
  }

  /** Expanding one pending node keeps the search sound; all its successors are now found. */
  lemma {:induction false} FrontierStep(g: map<Key, set<Key>>, start: Key, queue: seq<Key>, index: nat, found: set<Key>,
                     queue': seq<Key>, found': set<Key>)
    requires index < |queue| && Frontier(g, start, queue, index, found)
    requires Appended(g, queue, index, found, queue', found')
    requires forall b {:trigger b in Succ(g, queue[index])} :: b in Succ(g, queue[index]) ==> b in found'
    ensures index + 1 <= |queue'| && Frontier(g, start, queue', index + 1, found')
  {
    forall k | k in found'
      ensures Reaches(g, start, k)
    {
      if k !in found {
        assert queue[index] in found;
        ReachExtends(g, start, queue[index], k);
      }
    }
    forall i, b | 0 <= i < index + 1 && b in Succ(g, queue'[i])
      ensures b in found'
    {
      assert queue'[i] == queue[i];
    }
  }

  /** The queue and the found set grew by the same new successors of the node at hand. */
  ghost predicate Appended(g: map<Key, set<Key>>, queue: seq<Key>, index: nat, found: set<Key>, queue': seq<Key>,
                           found': set<Key>)
    requires index < |queue|
  {
    && |queue| <= |queue'| && queue'[..|queue|] == queue
    && found <= found'
    && (forall k {:trigger k in found} :: k in found ==> k in queue)
    && (forall k {:trigger k in found'} :: k in found' <==> k in queue')
    && (forall k {:trigger k in found'} :: k in found' && k !in found ==> k in Succ(g, queue[index]))
    && (forall i, j :: 0 <= i < j < |queue'| ==> queue'[i] != queue'[j])
  }

  /** Append the successors of the node at hand that have not been found yet. */
  method Append(next: seq<Key>, ghost g: map<Key, set<Key>>, queue: seq<Key>, ghost index: nat, found: set<Key>)
    returns (queue': seq<Key>, found': set<Key>)
    requires index < |queue| && Appended(g, queue, index, found, queue, found)
    requires forall b :: b in next <==> b in Succ(g, queue[index])
    ensures Appended(g, queue, index, found, queue', found')
    ensures forall b :: b in next ==> b in found'
  {
    queue', found' := queue, found;
    var i := 0;
    while i < |next|
      invariant i <= |next|
      invariant Appended(g, queue, index, found, queue', found')
      invariant forall j :: 0 <= j < i ==> next[j] in found'
    {
      if next[i] !in found' {
        found' := found' + {next[i]};
        queue' := queue' + [next[i]];
      }
      i := i + 1;
    }
  }

  /** Everything reachable from the start along the listed references. */
  method Reach(links: map<Key, seq<Key>>, ghost g: map<Key, set<Key>>, start: Key) returns (found: set<Key>)
    requires Adjacent(links, g) && start in links && forall a, b :: a in links && b in links[a] ==> b in links
    ensures forall k :: k in found <==> Reaches(g, start, k)
  {
    found := {start};
    var visit := [start];
    FrontierStart(g, start);
    var index := 0;
    hide Frontier, Appended;
    while index < |visit|
      invariant index <= |visit| && Frontier(g, start, visit, index, found)
      invariant forall k :: k in visit ==> k in links
      decreases |links.Keys| - index
    {
      var next := links[visit[index]];
      assert forall b :: b in next <==> b in Succ(g, visit[index]);
      FrontierAppends(g, start, visit, index, found);
      ghost var before := (visit, found);
      visit, found := Append(next, g, visit, index, found);
      FrontierStep(g, start, before.0, index, before.1, visit, found);
      VisitBounded(links.Keys, g, before.0, index, before.1, visit, found);
      index := index + 1;
    }
    forall k
      ensures k in found <==> Reaches(g, start, k)
    {
      FrontierDone(g, start, visit, found, k);
    }
  }

  lemma {:induction false} FrontierAppends(g: map<Key, set<Key>>, start: Key, queue: seq<Key>, index: nat,
                                           found: set<Key>)
    requires index < |queue| && Frontier(g, start, queue, index, found)
    ensures Appended(g, queue, index, found, queue, found)
  {
  }

  /** The queue never holds more entries than there are nodes. */
  lemma {:induction false} VisitBounded(all: set<Key>, g: map<Key, set<Key>>, queue: seq<Key>, index: nat,
                                        found: set<Key>,
                     queue': seq<Key>, found': set<Key>)
    requires index < |queue| && Appended(g, queue, index, found, queue', found')
    requires forall k :: k in queue ==> k in all
    requires forall a, b {:trigger b in Succ(g, a)} :: b in Succ(g, a) ==> b in all
    ensures forall k :: k in queue' ==> k in all
    ensures |queue'| <= |all|
  {
    forall k | k in queue'
      ensures k in all
    {
      assert k in found';
      if k !in queue {
        assert k in Succ(g, queue[index]);
      }
    }
    DistinctCount(queue');
    SubsetCount((set k | k in queue'), all);
  }

  /** Whether a resolved path leads from one product to another; the search stops when it meets the goal. */
  method ReturnPath(links: map<Key, seq<Key>>, ghost g: map<Key, set<Key>>, start: Key, goal: Key) returns (ok: bool)
    requires Adjacent(links, g) && forall a, b :: a in links && b in links[a] ==> b in links
    ensures ok <==> Reaches(g, start, goal)
  {
    var visited := {start};
    var pending := [start];
    ghost var all := links.Keys + {start};
    FrontierStart(g, start);
    var index := 0;
    hide Frontier, Appended;
    while index < |pending| && goal !in visited
      invariant index <= |pending| && Frontier(g, start, pending, index, visited)
      invariant forall k :: k in pending ==> k in all
      decreases |all| - index
    {
      var next := if pending[index] in links then links[pending[index]] else [];
      assert forall b :: b in next <==> b in Succ(g, pending[index]);
      FrontierAppends(g, start, pending, index, visited);
      ghost var before := (pending, visited);
      pending, visited := Append(next, g, pending, index, visited);
      FrontierStep(g, start, before.0, index, before.1, pending, visited);
      VisitBounded(all, g, before.0, index, before.1, pending, visited);
      index := index + 1;
    }
    if goal in visited {
      FrontierReaches(g, start, pending, index, visited, goal);
    } else {
      FrontierDone(g, start, pending, visited, goal);
    }
    ok := goal in visited;
  }

  lemma {:induction false} FrontierReaches(g: map<Key, set<Key>>, start: Key, queue: seq<Key>, index: nat,
                                           found: set<Key>, k: Key)
    requires index <= |queue| && Frontier(g, start, queue, index, found) && k in found
    ensures Reaches(g, start, k)
  {
  }

  // ---------------------------------------------------------------- the tables as graphs

  lemma {:induction false} ReferencesAdjacent(t: Trace, observed: set<Key>, keys: set<Key>,
                                              references: map<Key, seq<Key>>)
    requires Shaped(t, observed, keys) && ReferenceTable(t.edges, keys, references)
    ensures Adjacent(references, References(t.edges, keys))
    ensures forall a, b :: a in references && b in references[a] ==> b in references
  {
    hide ListedTargets, References, Keys;
    forall a, b {:trigger b in Succ(References(t.edges, keys), a)}
      ensures b in Succ(References(t.edges, keys), a) <==> a in references && b in references[a]
    {
      ReferenceSucc(t.edges, keys, a, b);
      ListedAreLinks(t.edges, keys, a, b);
      if ReferenceLink(t.edges, keys, a, b) {
        var e :| e in t.edges && e.from == a && e.to == b;
        assert ShapedEdge(observed, e);
        assert references[a] == ListedTargets(t.edges, keys, a);
      }
    }
    forall a, b | a in references && b in references[a]
      ensures b in references
    {
      ListedAreLinks(t.edges, keys, a, b);
    }
  }

  lemma {:induction false} UpstreamAdjacent(t: Trace, observed: set<Key>, upstream: map<Key, seq<Key>>)
    requires forall e {:trigger e in t.edges} :: e in t.edges ==> ShapedEdge(observed, e)
    requires UpstreamTable(t.edges, observed, upstream)
    ensures Adjacent(upstream, ResolvedGraph(t.edges))
    ensures forall a, b :: a in upstream && b in upstream[a] ==> b in upstream
  {
    hide ResolvedTargets, ResolvedGraph;
    forall a, b {:trigger b in Succ(ResolvedGraph(t.edges), a)}
      ensures b in Succ(ResolvedGraph(t.edges), a) <==> a in upstream && b in upstream[a]
    {
      ResolvedSucc(t.edges, a, b);
      TargetsAreLinks(t.edges, a, b);
      if ResolvedLink(t.edges, a, b) {
        var e :| e in t.edges && e.from == a && e.to == b && e.state == Resolved;
        assert ShapedEdge(observed, e);
        assert upstream[a] == ResolvedTargets(t.edges, a);
      }
    }
    forall a, b | a in upstream && b in upstream[a]
      ensures b in upstream
    {
      TargetsAreLinks(t.edges, a, b);
      var e :| e in t.edges && e.from == a && e.to == b && e.state == Resolved;
      assert ShapedEdge(observed, e);
    }
  }
}
