/** Every trace the registry walk can emit satisfies the trace specification, whatever fails on the way. */
module LineageAccepted {
  import opened Products
  import opened Compatibility
  import opened Digraph
  import opened Lineage
  import opened LineageKeeps
  import opened TraceSpec
  import opened LineageFacts
  import opened LineageLedger
  import opened LineagePaths
  import Versions
  import Order

  /** Everything known about a finished walk. */
  ghost predicate Finished(src: Source, root: Key, g: Walked)
  {
    && Books(root, g) && g.visiting == {} && root in g.products
    && AllFacts(src, root, 0, g)
    && Consistent(g.edges, 0) && |g.edges| <= MAX_TRACE_EDGES
    && Traced(root, 0, g)
  }

  lemma {:induction false} StartBooks(src: Source, root: Key)
    ensures Books(root, Read(src, Start, root).0)
    ensures var found := Read(src, Start, root).0;
            found.edges == [] && found.visiting == {} && found.visited == {} && found.nodes.Keys <= {root} &&
            (root in found.products ==>
               root in found.nodes && found.products[root].key == root && DistinctPorts(found.products[root]))
            && found.products.Keys <= {root}
  {
    assert Books(root, Start);
    ReadResult(src, root, Start, root);
    ReadKeys(src, Start, root);
    ReadGrows(src, Start, root);
    var (found, state) := Read(src, Start, root);
    hide Read, DistinctPorts, NodeFacts, Grows, HeightsKept;
    assert found.products.Keys <= found.nodes.Keys;
  }

  lemma {:induction false} StartPaths(root: Key, found: Walked)
    requires found.edges == [] && found.visiting == {} && found.nodes.Keys <= {root}
    ensures OnPath(root, found, root, 0) && NodesReached(root, found)
  {
    ReachesItself(References(found.edges, found.nodes.Keys), root);
  }

  lemma {:induction false} WalkFinishes(src: Source, root: Key)
    requires Canonical(src)
    ensures WalkFrom(src, root).Some? ==> Finished(src, root, WalkFrom(src, root).value)
  {
    var found := Read(src, Start, root).0;
    StartBooks(src, root);
    if root in found.products {
      var p := found.products[root];
      StartPaths(root, found);
      StartPlaced(root, found);
      hide *;
      var g := Visit(src, found, p, 0).0;
      VisitFacts(src, root, found, p, 0);
      VisitTraced(src, root, found, p, 0);
      BooksOrderly(root, found);
      VisitKeeps(src, found, p, 0);
      VisitingKept(src, found, g, found.visiting);
      KeptProducts(src, found, g, found.visiting, root);
      VisitListed(src, found, p, 0);
      FinishedIs(src, root, found, g);
      WalkIs(src, root);
    }
  }

  lemma {:induction false} WalkIs(src: Source, root: Key)
    ensures var found := Read(src, Start, root).0;
            root in found.products ==> WalkFrom(src, root) == Some(Visit(src, found, found.products[root], 0).0)
  {
    hide Read, Visit;
  }

  lemma {:induction false} StartPlaced(root: Key, found: Walked)
    requires root in found.products && found.products[root].key == root && DistinctPorts(found.products[root])
    requires found.products.Keys <= {root}
    ensures Placed(root, found, found.products[root], 0)
    ensures ProductsDistinct(found) && DistinctNames(InputNames(found.products[root].inputs))
  {
    hide DistinctNames;
  }

  lemma {:induction false} KeptProducts(src: Source, g: Walked, h: Walked, open: set<Key>, k: Key)
    requires Kept(src, g, h, open) && k in g.products
    ensures k in h.products
  {
  }

  lemma {:induction false} FinishedIs(src: Source, root: Key, found: Walked, g: Walked)
    requires found.edges == [] && Books(root, g) && g.visiting == {} && root in g.products
    requires AllFacts(src, root, |found.edges|, g) && Listed(found, g) && Traced(root, |found.edges|, g)
    ensures Finished(src, root, g)
  {
    hide Books, AllFacts, Traced, Consistent;
  }

  // ---------------------------------------------------------------- presentation

  lemma {:induction false} SameMembers(a: seq<Edge>, b: seq<Edge>)
    requires multiset(a) == multiset(b)
    ensures forall e :: e in a <==> e in b
    ensures |a| == |b|
  {
    forall e
      ensures e in a <==> e in b
    {
      Order.PermutationMember(a, b, e);
    }
    assert |multiset(a)| == |a| && |multiset(b)| == |b|;
  }

  /** The graphs of a trace depend on its edges, not on their order. */
  lemma {:induction false} SameGraphs(a: seq<Edge>, b: seq<Edge>, keys: set<Key>)
    requires forall e :: e in a <==> e in b
    ensures ResolvedGraph(a) == ResolvedGraph(b) && References(a, keys) == References(b, keys)
  {
    assert Froms(a) == Froms(b);
    forall k | k in Froms(a)
      ensures ResolvedGraph(a)[k] == ResolvedGraph(b)[k] && References(a, keys)[k] == References(b, keys)[k]
    {
      assert (set e | e in a && e.from == k && e.state == Resolved :: e.to)
          == (set e | e in b && e.from == k && e.state == Resolved :: e.to);
      assert (set e | e in a && e.from == k && e.to in keys :: e.to)
          == (set e | e in b && e.from == k && e.to in keys :: e.to);
    }
  }

  lemma {:induction false} HeaderHolds(src: Source, root: Key, g: Walked, t: Trace)
    requires Books(root, g) && Presents(t, root, g) && |g.edges| <= MAX_TRACE_EDGES
    ensures HeaderSound(t, root)
  {
    hide NodeFacts;
    SameMembers(t.edges, g.edges);
    IssuesBounded(t.issues);
    NodesBounded(g, t);
    if t.issues != [] {
      assert t.issues[0] in t.issues;
    }
    if g.issues != {} {
      var x :| x in g.issues;
      assert x in t.issues;
    }
  }

  lemma {:induction false} IssuesBounded(issues: seq<State>)
    requires Distinct(issues) && forall x :: x in issues ==> FailureState(x)
    ensures |issues| <= 11
  {
    var all := {Missing, Unavailable, Invalid, IdentityMismatch, Timeout, MetadataLimit, ProductLimit, DepthLimit,
                EdgeLimit, CrossNamespace, Cycle};
    DistinctCount(issues);
    SubsetCount((set x | x in issues), all);
  }

  lemma {:induction false} NodesBounded(g: Walked, t: Trace)
    requires Distinct(t.nodes) && forall n :: n in t.nodes <==> n.key in g.nodes && g.nodes[n.key] == n
    ensures |t.nodes| <= |g.nodes|
  {
    DistinctCount(t.nodes);
    SubsetCount((set n | n in t.nodes), g.nodes.Values);
    ValuesCount(g.nodes);
  }

  lemma {:induction false} ValuesCount(m: map<Key, Node>)
    ensures |m.Values| <= |m|
    decreases |m|
  {
    if m != map[] {
      var k :| k in m;
      var rest := m - {k};
      assert rest.Keys == m.Keys - {k};
      ValuesCount(rest);
      forall v | v in m.Values
        ensures v in rest.Values + {m[k]}
      {
        var x :| x in m && m[x] == v;
        if x != k {
          assert x in rest && rest[x] == v;
        }
      }
      SubsetCount(m.Values, rest.Values + {m[k]});
    } else {
      assert m.Values == {};
    }
  }

  lemma {:induction false} NodesHold(root: Key, g: Walked, t: Trace)
    requires Books(root, g) && Presents(t, root, g)
    ensures NodesSound(t, root) && Keys(t) == g.nodes.Keys && ObservedKeys(t) == g.products.Keys
  {
    hide DistinctPorts;
    forall i, j | 0 <= i < j < |t.nodes|
      ensures t.nodes[i].key != t.nodes[j].key
    {
      assert t.nodes[i] in t.nodes && t.nodes[j] in t.nodes;
    }
    forall n | n in t.nodes
      ensures NodeSound(t, root, n)
    {
      assert NodeFacts(root, g, n.key);
    }
    forall k | k in g.nodes
      ensures g.nodes[k].key == k && g.nodes[k] in t.nodes && (k in g.products <==> ObservedState(g.nodes[k].state))
    {
      assert NodeFacts(root, g, k);
    }
    assert forall n :: n in t.nodes ==> n.key in g.nodes && g.nodes[n.key] == n;
  }

  lemma {:induction false} EdgeHolds(src: Source, root: Key, g: Walked, t: Trace, e: Edge)
    requires Books(root, g) && Presents(t, root, g) && g.visiting == {} && EdgeFacts(src, root, g, e)
    requires Keys(t) == g.nodes.Keys && ObservedKeys(t) == g.products.Keys
    ensures EdgeSound(t, root, e)
  {
    hide DistinctPorts, Keys, ObservedKeys, Distinct, NodeFacts;
    assert e.from in ObservedKeys(t);
    if e.state == Resolved {
      assert e.to in g.products;
    } else {
      assert e.state in t.issues;
    }
    if e.state in CachedFailures {
      BookOf(root, g, t, e.to);
    }
    forall n | n in t.nodes && n.key == e.to
      ensures e.state in ReadFailures + {Timeout} && !ObservedState(n.state) ==> n.state == e.state
      ensures e.compatibility == Compatible && e.requirement.Some? ==>
                Versions.BrowserCompatible(n.version, e.requirement.value.minimum)
    {
      assert g.nodes[e.to] == n;
      BookOf(root, g, t, e.to);
      if e.compatibility == Compatible && e.requirement.Some? {
        Versions.BrowserAgreesWithController(n.version, e.requirement.value.minimum);
      }
    }
  }

  lemma {:induction false} BookOf(root: Key, g: Walked, t: Trace, k: Key)
    requires Books(root, g) && k in g.nodes && Presents(t, root, g)
    ensures g.nodes[k].key == k && g.nodes[k] in t.nodes
    ensures k in g.products <==> ObservedState(g.nodes[k].state)
    ensures k in g.products ==> g.nodes[k].version == g.products[k].version
  {
    hide DistinctPorts, Distinct;
    assert NodeFacts(root, g, k);
  }

  lemma {:induction false} SlotsDistinct(g: Walked, t: Trace)
    requires Consistent(g.edges, 0) && multiset(t.edges) == multiset(g.edges)
    ensures forall i, j :: 0 <= i < j < |t.edges| ==>
              t.edges[i].from != t.edges[j].from || t.edges[i].input != t.edges[j].input
  {
    var slot := (e: Edge) => (e.from, e.input);
    forall i, j | 0 <= i < j < |g.edges|
      ensures slot(g.edges[i]) != slot(g.edges[j])
    {
    }
    Order.PermutationDistinct(g.edges, t.edges, slot);
    forall i, j | 0 <= i < j < |t.edges|
      ensures t.edges[i].from != t.edges[j].from || t.edges[i].input != t.edges[j].input
    {
      assert slot(t.edges[i]) != slot(t.edges[j]);
    }
  }

  lemma {:induction false} EdgesHold(src: Source, root: Key, g: Walked, t: Trace)
    requires Finished(src, root, g) && Presents(t, root, g)
    requires Keys(t) == g.nodes.Keys && ObservedKeys(t) == g.products.Keys
    ensures EdgesSound(t, root)
  {
    hide EdgeFacts, EdgeSound, Books, Traced, Keys, ObservedKeys, Consistent, Distinct;
    SameMembers(t.edges, g.edges);
    SlotsDistinct(g, t);
    forall e | e in t.edges
      ensures EdgeSound(t, root, e)
    {
      var j :| 0 <= j < |g.edges| && g.edges[j] == e;
      EdgeHolds(src, root, g, t, e);
    }
  }

  // ---------------------------------------------------------------- the graph

  lemma {:induction false} FallsAt(src: Source, root: Key, g: Walked, e: Edge)
    requires AllFacts(src, root, 0, g) && g.visiting == {} && e in g.edges && e.state == Resolved
    ensures e.from in g.visited && e.to in g.visited && Height(g, e.to) < Height(g, e.from)
  {
    hide TargetFacts, ContractFacts;
    var j :| 0 <= j < |g.edges| && g.edges[j] == e;
    assert EdgeFacts(src, root, g, g.edges[j]);
  }

  lemma {:induction false} ResolvedFalls(src: Source, root: Key, g: Walked)
    requires AllFacts(src, root, 0, g) && g.visiting == {}
    ensures Acyclic(ResolvedGraph(g.edges))
  {
    hide AllFacts;
    var rank := map k | k in g.visited :: Height(g, k);
    forall x, y {:trigger y in Succ(ResolvedGraph(g.edges), x)} | y in Succ(ResolvedGraph(g.edges), x)
      ensures x in rank && y in rank && rank[y] < rank[x]
    {
      ResolvedSucc(g.edges, x, y);
      var e :| e in g.edges && e.from == x && e.to == y && e.state == Resolved;
      FallsAt(src, root, g, e);
    }
    RankIsAcyclic(ResolvedGraph(g.edges), rank);
  }

  lemma {:induction false} DepthsAgree(g: Walked, e: Edge, f: Edge)
    requires Consistent(g.edges, 0) && e in g.edges && f in g.edges && e.from == f.from
    ensures e.depth == f.depth
  {
    var i :| 0 <= i < |g.edges| && g.edges[i] == e;
    var j :| 0 <= j < |g.edges| && g.edges[j] == f;
    assert i < j || j < i || i == j;
  }

  lemma {:induction false} EdgeBacked(src: Source, root: Key, g: Walked, e: Edge)
    requires AllFacts(src, root, 0, g) && Traced(root, 0, g) && e in g.edges
    ensures EdgeFacts(src, root, g, e) && PathFact(root, g.edges, e)
  {
    hide EdgeFacts, PathFact, NodesReached;
    var j :| 0 <= j < |g.edges| && g.edges[j] == e;
  }

  lemma {:induction false} NodeReached(root: Key, g: Walked, k: Key)
    requires Traced(root, 0, g) && k in g.nodes
    ensures Reaches(References(g.edges, g.nodes.Keys), root, k)
  {
    hide AllPaths, References;
  }

  lemma {:induction false} GraphHolds(src: Source, root: Key, g: Walked, t: Trace)
    requires Finished(src, root, g) && Presents(t, root, g)
    requires Keys(t) == g.nodes.Keys
    ensures GraphSound(t)
  {
    hide Acyclic, ResolvedGraph, References, Keys, Books, AllFacts, Traced, Consistent, EdgeFacts, Distinct, Walk,
         Reaches;
    SameMembers(t.edges, g.edges);
    SameGraphs(t.edges, g.edges, Keys(t));
    ResolvedFalls(src, root, g);
    forall e, f | e in t.edges && f in t.edges && e.from == f.from
      ensures e.depth == f.depth
    {
      DepthsAgree(g, e, f);
    }
    forall e | e in t.edges
      ensures DepthSound(t, e) && (e.state == Cycle ==> Reaches(ResolvedGraph(t.edges), e.to, e.from))
    {
      EdgeBacked(src, root, g, e);
      EdgeDepth(src, root, g, e);
    }
    forall k | k in Keys(t)
      ensures Reaches(References(t.edges, Keys(t)), t.root, k)
    {
      NodeReached(root, g, k);
    }
  }

  lemma {:induction false} EdgeDepth(src: Source, root: Key, g: Walked, e: Edge)
    requires EdgeFacts(src, root, g, e)
    ensures e.from == root ==> e.depth == 1
    ensures e.depth == MAX_TRACE_DEPTH ==> e.state == DepthLimit || e.state == CrossNamespace
  {
    hide TargetFacts, ContractFacts;
  }

  /**
   Producer and checker agree: for every graph, every pattern of missing, failed, oversized, ambiguous or late
   reads, and every limit met, any presentation of the walk is a sound trace.
   */
  lemma {:induction false} EveryTraceIsSound(src: Source, root: Key, t: Trace)
    requires Canonical(src) && WalkFrom(src, root).Some? && Presents(t, root, WalkFrom(src, root).value)
    ensures TraceSound(t, root)
  {
    var g := WalkFrom(src, root).value;
    WalkFinishes(src, root);
    assert Books(root, g) && root in g.products && |g.edges| <= MAX_TRACE_EDGES by {
      hide Books, AllFacts, Consistent, Traced;
    }
    hide *;
    HeaderHolds(src, root, g, t);
    NodesHold(root, g, t);
    EdgesHold(src, root, g, t);
    GraphHolds(src, root, g, t);
    TraceSoundIs(t, root);
  }

  lemma {:induction false} TraceSoundIs(t: Trace, root: Key)
    requires HeaderSound(t, root) && NodesSound(t, root) && root in ObservedKeys(t) && EdgesSound(t, root) &&
             GraphSound(t)
    ensures TraceSound(t, root)
  {
  }
}
