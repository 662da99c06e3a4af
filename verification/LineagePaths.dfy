/** Emitted depths and cycle verdicts are backed by resolved paths, and every node is connected to the root. */
module LineagePaths {
  import opened Products
  import opened Compatibility
  import opened Digraph
  import opened Lineage
  import opened LineageKeeps
  import opened TraceSpec
  import opened LineageFacts

  ghost predicate PathFact(root: Key, edges: seq<Edge>, e: Edge)
  {
    && e.depth >= 1 && Walk(ResolvedGraph(edges), root, e.from, e.depth - 1)
    && (e.state == Cycle ==> Reaches(ResolvedGraph(edges), e.to, e.from))
  }

  ghost predicate AllPaths(root: Key, n: nat, edges: seq<Edge>)
  {
    forall j {:trigger edges[j]} :: n <= j < |edges| ==> PathFact(root, edges, edges[j])
  }

  ghost predicate NodesReached(root: Key, g: Walked)
  {
    forall k {:trigger k in g.nodes} :: k in g.nodes ==> Reaches(References(g.edges, g.nodes.Keys), root, k)
  }

  /** The product at hand ends a resolved path of this length, and every open product leads to it. */
  ghost predicate OnPath(root: Key, g: Walked, k: Key, depth: nat)
  {
    && Walk(ResolvedGraph(g.edges), root, k, depth)
    && (forall v {:trigger Reaches(ResolvedGraph(g.edges), v, k)} :: v in g.visiting ==>
        Reaches(ResolvedGraph(g.edges), v, k))
  }

  // ---------------------------------------------------------------- growing graphs

  lemma {:induction false} PrefixIncluded(a: seq<Edge>, b: seq<Edge>)
    requires Prefix(a, b)
    ensures Included(ResolvedGraph(a), ResolvedGraph(b))
  {
    forall x, y | y in Succ(ResolvedGraph(a), x)
      ensures y in Succ(ResolvedGraph(b), x)
    {
      ResolvedSucc(a, x, y);
      var e :| e in a && e.from == x && e.to == y && e.state == Resolved;
      PrefixMember(a, b, e);
      assert ResolvedLink(b, x, y);
      ResolvedSucc(b, x, y);
    }
  }

  lemma {:induction false} PrefixMember(a: seq<Edge>, b: seq<Edge>, e: Edge)
    requires Prefix(a, b) && e in a
    ensures e in b
  {
    var i :| 0 <= i < |a| && a[i] == e;
    assert b[..|a|][i] == b[i];
  }

  lemma {:induction false} PathFactGrows(root: Key, a: seq<Edge>, b: seq<Edge>, e: Edge)
    requires Included(ResolvedGraph(a), ResolvedGraph(b)) && PathFact(root, a, e)
    ensures PathFact(root, b, e)
  {
    Monotone(ResolvedGraph(a), ResolvedGraph(b), root, e.from, e.depth - 1);
    if e.state == Cycle {
      MonotoneReach(ResolvedGraph(a), ResolvedGraph(b), e.to, e.from);
    }
  }

  lemma {:induction false} OnPathGrows(root: Key, g: Walked, h: Walked, k: Key, depth: nat)
    requires OnPath(root, g, k, depth) && Included(ResolvedGraph(g.edges), ResolvedGraph(h.edges))
    requires h.visiting == g.visiting
    ensures OnPath(root, h, k, depth)
  {
    Monotone(ResolvedGraph(g.edges), ResolvedGraph(h.edges), root, k, depth);
    forall v | v in h.visiting
      ensures Reaches(ResolvedGraph(h.edges), v, k)
    {
      MonotoneReach(ResolvedGraph(g.edges), ResolvedGraph(h.edges), v, k);
    }
  }

  lemma {:induction false} AllPathsJoin(root: Key, n: nat, a: seq<Edge>, b: seq<Edge>)
    requires Prefix(a, b) && AllPaths(root, n, a) && AllPaths(root, |a|, b)
    ensures AllPaths(root, n, b)
  {
    PrefixIncluded(a, b);
    hide PathFact, ResolvedGraph;
    forall j | n <= j < |b|
      ensures PathFact(root, b, b[j])
    {
      if j < |a| {
        assert b[..|a|][j] == b[j];
        PathFactGrows(root, a, b, a[j]);
      }
    }
  }

  /** Rewriting a resolved edge into a resolved edge between the same products changes no path. */
  lemma {:induction false} RewriteResolved(edges: seq<Edge>, i: nat, e: Edge)
    requires i < |edges| && edges[i].state == Resolved && e.state == Resolved
    requires e.from == edges[i].from && e.to == edges[i].to
    ensures Included(ResolvedGraph(edges), ResolvedGraph(edges[i := e]))
  {
    forall x, y | y in Succ(ResolvedGraph(edges), x)
      ensures y in Succ(ResolvedGraph(edges[i := e]), x)
    {
      ResolvedSucc(edges, x, y);
      var f :| f in edges && f.from == x && f.to == y && f.state == Resolved;
      var j :| 0 <= j < |edges| && edges[j] == f;
      assert edges[i := e][j] in edges[i := e];
      assert ResolvedLink(edges[i := e], x, y);
      ResolvedSucc(edges[i := e], x, y);
    }
  }

  // ---------------------------------------------------------------- nodes

  /** Edges that only gain, and keys that only gain, keep every node connected. */
  lemma {:induction false} ReachedGrows(root: Key, a: seq<Edge>, k: set<Key>, b: seq<Edge>, l: set<Key>, x: Key)
    requires Reaches(References(a, k), root, x) && k <= l
    requires forall e {:trigger e in a} :: e in a ==> exists f :: f in b && f.from == e.from && f.to == e.to
    ensures Reaches(References(b, l), root, x)
  {
    forall u, v | v in Succ(References(a, k), u)
      ensures v in Succ(References(b, l), u)
    {
      ReferenceSucc(a, k, u, v);
      var e :| e in a && e.from == u && e.to == v;
      var f :| f in b && f.from == e.from && f.to == e.to;
      assert ReferenceLink(b, l, u, v);
      ReferenceSucc(b, l, u, v);
    }
    MonotoneReach(References(a, k), References(b, l), root, x);
  }

  /** Every edge of a, up to its state, is an edge of b. */
  ghost predicate Covers(a: seq<Edge>, b: seq<Edge>)
  {
    forall e {:trigger e in a} :: e in a ==> exists f :: f in b && f.from == e.from && f.to == e.to
  }

  lemma {:induction false} PrefixCovers(a: seq<Edge>, b: seq<Edge>)
    requires Prefix(a, b)
    ensures Covers(a, b)
  {
    forall e | e in a
      ensures exists f :: f in b && f.from == e.from && f.to == e.to
    {
      PrefixMember(a, b, e);
    }
  }

  lemma {:induction false} RewriteCovers(a: seq<Edge>, i: nat, e: Edge)
    requires i < |a| && e.from == a[i].from && e.to == a[i].to
    ensures Covers(a, a[i := e])
  {
    forall f | f in a
      ensures exists x :: x in a[i := e] && x.from == f.from && x.to == f.to
    {
      var j :| 0 <= j < |a| && a[j] == f;
      assert a[i := e][j] in a[i := e];
    }
  }

  lemma {:induction false} NodesSame(root: Key, g: Walked, h: Walked)
    requires NodesReached(root, g) && h.nodes.Keys == g.nodes.Keys && Covers(g.edges, h.edges)
    ensures NodesReached(root, h)
  {
    hide References;
    forall k | k in h.nodes
      ensures Reaches(References(h.edges, h.nodes.Keys), root, k)
    {
      ReachedGrows(root, g.edges, g.nodes.Keys, h.edges, h.nodes.Keys, k);
    }
  }

  /** A read adds at most the target of the edge just emitted. */
  lemma {:induction false} ReadReached(src: Source, root: Key, g: Walked, p: Product, depth: nat, input: Input)
    requires NodesReached(root, g) && p.key in g.nodes && Orderly(g)
    ensures var emitted := g.(edges := g.edges + [NewEdge(p, depth, input)]);
            NodesReached(root, Read(src, emitted, Target(p.key, input)).0)
  {
    var edge := NewEdge(p, depth, input);
    var emitted := g.(edges := g.edges + [edge]);
    var h := Read(src, emitted, edge.to).0;
    ReadKeys(src, emitted, edge.to);
    PrefixCovers(g.edges, emitted.edges);
    hide Read, Target;
    forall k | k in h.nodes
      ensures Reaches(References(h.edges, h.nodes.Keys), root, k)
    {
      if k in g.nodes {
        ReachedGrows(root, g.edges, g.nodes.Keys, h.edges, h.nodes.Keys, k);
      } else {
        ReachedGrows(root, g.edges, g.nodes.Keys, h.edges, h.nodes.Keys, p.key);
        assert edge in h.edges;
        assert ReferenceLink(h.edges, h.nodes.Keys, p.key, k);
        ReferenceSucc(h.edges, h.nodes.Keys, p.key, k);
        ReachExtends(References(h.edges, h.nodes.Keys), root, p.key, k);
      }
    }
  }

  lemma {:induction false} ReadKeys(src: Source, g: Walked, key: Key)
    ensures var h := Read(src, g, key).0;
            h.edges == g.edges && g.nodes.Keys <= h.nodes.Keys <= g.nodes.Keys + {key}
  {
    if key !in g.nodes {
      RecordCounts(src, Tick(g), key);
    }
    hide Classify;
  }

  // ---------------------------------------------------------------- the walk

  ghost predicate Traced(root: Key, n: nat, h: Walked)
  {
    AllPaths(root, n, h.edges) && NodesReached(root, h)
  }

  lemma {:induction false} TickReached(root: Key, g: Walked)
    requires NodesReached(root, g)
    ensures forall h: Walked {:trigger NodesReached(root, h)} :: h.edges == g.edges && h.nodes == g.nodes ==>
              NodesReached(root, h)
  {
  }

  lemma {:induction false} VisitTraced(src: Source, root: Key, g: Walked, p: Product, depth: nat)
    requires Canonical(src) && Books(root, g) && Placed(root, g, p, depth)
    requires depth == 0 ==> p.key == root
    requires OnPath(root, g, p.key, depth) && NodesReached(root, g)
    ensures Traced(root, |g.edges|, Visit(src, g, p, depth).0)
    decreases Remaining(depth), 2, 0
  {
    hide Canonical, NodeFacts, VisitInputs, NodesReached, OnPath;
    TickReached(root, g);
    if !Late(src, g.clock) && p.key !in g.visiting && depth < MAX_TRACE_DEPTH && p.key !in g.visited {
      var open := Tick(g).(visiting := g.visiting + {p.key});
      SameBooks(root, g, open);
      OpenOnPath(root, g, open, p.key, depth);
      VisitInputsTraced(src, root, open, p, depth, SortedInputs(p));
      TickReached(root, VisitInputs(src, open, p, depth, SortedInputs(p)));
    }
  }

  lemma {:induction false} OpenOnPath(root: Key, g: Walked, open: Walked, key: Key, depth: nat)
    requires OnPath(root, g, key, depth) && open.edges == g.edges && open.visiting == g.visiting + {key}
    ensures OnPath(root, open, key, depth)
  {
    ReachesItself(ResolvedGraph(g.edges), key);
  }

  lemma {:induction false} VisitInputsTraced(src: Source, root: Key, g: Walked, p: Product, depth: nat,
                                             inputs: seq<Input>)
    requires depth < MAX_TRACE_DEPTH
    requires Canonical(src) && Books(root, g) && Expanding(root, g, p, depth)
    requires OnPath(root, g, p.key, depth) && NodesReached(root, g)
    ensures Traced(root, |g.edges|, VisitInputs(src, g, p, depth, inputs))
    decreases Remaining(depth), 1, |inputs|
  {
    hide Canonical, NodeFacts, Inspect, NodesReached, OnPath, Kept, PathFact;
    TickReached(root, g);
    if inputs != [] && |g.edges| < MAX_TRACE_EDGES && !Late(src, g.clock) {
      TickBooks(root, g);
      OnPathSame(root, g, Tick(g), p.key, depth);
      InspectTraced(src, root, Tick(g), p, depth, inputs[0]);
      InspectFacts(src, root, Tick(g), p, depth, inputs[0]);
      InspectKeeps(src, Tick(g), p, depth, inputs[0]);
      var next := Inspect(src, Tick(g), p, depth, inputs[0]);
      KeptFacts(src, Tick(g), next, g.visiting - {p.key});
      ExpandingKept(src, root, Tick(g), next, p, depth);
      OnPathGrows(root, Tick(g), next, p.key, depth);
      VisitInputsTraced(src, root, next, p, depth, inputs[1..]);
      VisitInputsKeeps(src, next, p, depth, inputs[1..]);
      var h := VisitInputs(src, next, p, depth, inputs[1..]);
      KeptFacts(src, next, h, next.visiting - {p.key});
      AllPathsJoin(root, |g.edges|, next.edges, h.edges);
    }
  }

  lemma {:induction false} OnPathSame(root: Key, g: Walked, h: Walked, k: Key, depth: nat)
    requires OnPath(root, g, k, depth) && h.edges == g.edges && h.visiting == g.visiting
    ensures OnPath(root, h, k, depth)
  {
  }

  lemma {:induction false} KeptFacts(src: Source, g: Walked, h: Walked, open: set<Key>)
    requires Kept(src, g, h, open)
    ensures h.visiting == g.visiting && Prefix(g.edges, h.edges)
    ensures Included(ResolvedGraph(g.edges), ResolvedGraph(h.edges))
  {
    PrefixIncluded(g.edges, h.edges);
  }

  /** The read below an emitted edge: what it leaves alone, and where it leads. */
  lemma {:induction false} FoundFacts(src: Source, root: Key, g: Walked, p: Product, depth: nat, input: Input)
    requires Books(root, g) && Expanding(root, g, p, depth)
    requires NodesReached(root, g) && Target(p.key, input).ns == p.key.ns
    ensures var emitted := g.(edges := g.edges + [NewEdge(p, depth, input)]);
            var (found, state) := Read(src, emitted, Target(p.key, input));
            && Books(root, found) && NodesReached(root, found)
            && found.edges == emitted.edges && found.visiting == g.visiting
            && (Target(p.key, input) in found.products ==>
                && Placed(root, found, found.products[Target(p.key, input)], depth + 1)
                && found.products[Target(p.key, input)].key == Target(p.key, input))
            && (Target(p.key, input) !in found.products ==> state != Cycle)
  {
    var key := Target(p.key, input);
    var emitted := g.(edges := g.edges + [NewEdge(p, depth, input)]);
    hide *;
    ExpandingProduct(root, g, p, depth);
    PlacedNamespace(root, g, p.key);
    EmitBooks(root, g, emitted);
    ReadReachedIn(src, root, g, p, depth, input);
    ReadResult(src, root, emitted, key);
    ReadKept(src, root, emitted, key);
    var (found, state) := Read(src, emitted, key);
    OutcomeFacts(src, found, state, key);
    if key in found.products {
      ExpandingEmitted(root, g, emitted, p, depth);
      PlacedBelow(src, root, emitted, found, p, depth, key);
    }
  }

  lemma {:induction false} ExpandingProduct(root: Key, g: Walked, p: Product, depth: nat)
    requires Expanding(root, g, p, depth)
    ensures p.key in g.products && depth < MAX_TRACE_DEPTH
  {
  }

  lemma {:induction false} OutcomeFacts(src: Source, found: Walked, state: State, key: Key)
    requires ReadOutcome(src, found, state, key)
    ensures key in found.products ==> found.products[key].key == key
    ensures key !in found.products ==> state != Cycle
  {
    hide DistinctPorts;
  }

  lemma {:induction false} EmitBooks(root: Key, g: Walked, emitted: Walked)
    requires Books(root, g) && emitted == g.(edges := emitted.edges)
    ensures Books(root, emitted)
  {
    hide NodeFacts;
    SameBooks(root, g, emitted);
  }

  lemma {:induction false} ReadReachedIn(src: Source, root: Key, g: Walked, p: Product, depth: nat, input: Input)
    requires NodesReached(root, g) && Books(root, g) && Expanding(root, g, p, depth)
    ensures var emitted := g.(edges := g.edges + [NewEdge(p, depth, input)]);
            NodesReached(root, Read(src, emitted, Target(p.key, input)).0)
  {
    hide NodesReached, NodeFacts, Read, Target;
    ReadReached(src, root, g, p, depth, input);
  }

  lemma {:induction false} ReadKept(src: Source, root: Key, g: Walked, key: Key)
    requires Books(root, g)
    ensures var found := Read(src, g, key).0;
            Kept(src, g, found, g.visiting) && found.edges == g.edges && found.visiting == g.visiting
  {
    hide NodeFacts, Read, Grows, HeightsKept;
    ReadGrows(src, g, key);
    ReadOrderly(src, g, key);
  }

  lemma {:induction false} ExpandingEmitted(root: Key, g: Walked, emitted: Walked, p: Product, depth: nat)
    requires Expanding(root, g, p, depth) && emitted == g.(edges := emitted.edges)
    ensures Expanding(root, emitted, p, depth)
  {
  }

  lemma {:induction false} InspectTraced(src: Source, root: Key, g: Walked, p: Product, depth: nat, input: Input)
    requires depth < MAX_TRACE_DEPTH
    requires Canonical(src) && Books(root, g) && Expanding(root, g, p, depth)
    requires OnPath(root, g, p.key, depth) && NodesReached(root, g)
    ensures Traced(root, |g.edges|, Inspect(src, g, p, depth, input))
    decreases Remaining(depth), 0, 0
  {
    hide Canonical, Books, Visit, Read, NodesReached, OnPath, Kept, Traced, Target, Placed;
    var edge := NewEdge(p, depth, input);
    var emitted := g.(edges := g.edges + [edge]);
    var h := Inspect(src, g, p, depth, input);
    if edge.to.ns != p.key.ns || depth + 1 >= MAX_TRACE_DEPTH {
      LastTraced(root, g, g, h, p.key, depth);
    } else {
      FoundFacts(src, root, g, p, depth, input);
      var (found, state) := Read(src, emitted, edge.to);
      if edge.to !in found.products || Evaluated(src.evaluate(input, found.products[edge.to])) == NotEvaluated {
        LastTraced(root, g, found, h, p.key, depth);
      } else {
        var producer := found.products[edge.to];
        ProducerOnPath(root, g, found, p, depth, input);
        VisitTraced(src, root, found, producer, depth + 1);
        BooksOrderly(root, found);
        VisitKeeps(src, found, producer, depth + 1);
        VisitCycle(src, found, producer, depth + 1);
        var (below, reached) := Visit(src, found, producer, depth + 1);
        if reached == Resolved {
          KeptFacts(src, found, below, found.visiting);
          ResolvedTraced(root, g, below, h, p, depth, input);
        } else {
          LastTraced(root, g, found, h, p.key, depth);
        }
      }
    }
  }

  lemma {:induction false} BooksOrderly(root: Key, g: Walked)
    requires Books(root, g)
    ensures Orderly(g)
  {
  }

  /** A cycle is only reported for an open product. */
  lemma {:induction false} VisitCycle(src: Source, g: Walked, p: Product, depth: nat)
    ensures Visit(src, g, p, depth).1 == Cycle ==> p.key in g.visiting
  {
    hide VisitInputs;
  }

  lemma {:induction false} ProducerOnPath(root: Key, g: Walked, found: Walked, p: Product, depth: nat, input: Input)
    requires OnPath(root, g, p.key, depth)
    requires found.edges == g.edges + [NewEdge(p, depth, input)] && found.visiting == g.visiting
    ensures OnPath(root, found, Target(p.key, input), depth + 1)
  {
    var key := Target(p.key, input);
    var edge := NewEdge(p, depth, input);
    PrefixIncluded(g.edges, found.edges);
    assert edge in found.edges;
    assert ResolvedLink(found.edges, p.key, key);
    ResolvedSucc(found.edges, p.key, key);
    OnPathGrows(root, g, found, p.key, depth);
    Extend(ResolvedGraph(found.edges), root, p.key, key, depth);
    forall v | v in found.visiting
      ensures Reaches(ResolvedGraph(found.edges), v, key)
    {
      ReachExtends(ResolvedGraph(found.edges), v, p.key, key);
    }
  }

  /** The edge just emitted is the last one, in its final form. */
  lemma {:induction false} LastTraced(root: Key, g: Walked, found: Walked, h: Walked, key: Key, depth: nat)
    requires OnPath(root, g, key, depth) && NodesReached(root, found) && h.nodes == found.nodes
    requires |h.edges| == |g.edges| + 1 && h.edges[..|g.edges|] == g.edges
    requires found.edges == g.edges || (|found.edges| == |h.edges| && found.edges[..|g.edges|] == g.edges
             && found.edges[|g.edges|].from == h.edges[|g.edges|].from
             && found.edges[|g.edges|].to == h.edges[|g.edges|].to)
    requires h.edges[|g.edges|].from == key && h.edges[|g.edges|].depth == depth + 1
    requires h.edges[|g.edges|].state == Cycle ==> h.edges[|g.edges|].to in g.visiting
    ensures Traced(root, |g.edges|, h)
  {
    hide NodesReached, ResolvedGraph;
    var final := h.edges[|g.edges|];
    PrefixIncluded(g.edges, h.edges);
    Monotone(ResolvedGraph(g.edges), ResolvedGraph(h.edges), root, key, depth);
    if final.state == Cycle {
      MonotoneReach(ResolvedGraph(g.edges), ResolvedGraph(h.edges), final.to, key);
    }
    if found.edges == g.edges {
      PrefixCovers(found.edges, h.edges);
    } else {
      RewriteCovers(found.edges, |g.edges|, final);
      assert found.edges[|g.edges| := final] == h.edges;
    }
    NodesSame(root, found, h);
  }

  /** The edge just emitted was resolved; its producer's edges follow it. */
  lemma {:induction false} ResolvedTraced(root: Key, g: Walked, below: Walked, h: Walked, p: Product, depth: nat,
                                          input: Input)
    requires OnPath(root, g, p.key, depth) && Traced(root, |g.edges| + 1, below) && h.nodes == below.nodes
    requires Prefix(g.edges + [NewEdge(p, depth, input)], below.edges)
    requires exists contracted ::
               h.edges == below.edges[
                 |g.edges| := NewEdge(p, depth, input).(state := Resolved, compatibility := contracted)]
    ensures Traced(root, |g.edges|, h)
  {
    hide NodesReached, ResolvedGraph, PathFact;
    var edge := NewEdge(p, depth, input);
    var n := |g.edges|;
    assert below.edges[n] == below.edges[..n + 1][n] == edge;
    var final := h.edges[n];
    RewriteResolved(below.edges, n, final);
    RewriteCovers(below.edges, n, final);
    NodesSame(root, below, h);
    assert h.edges[..n] == below.edges[..n] == below.edges[..n + 1][..n] == g.edges;
    PrefixIncluded(g.edges, h.edges);
    Monotone(ResolvedGraph(g.edges), ResolvedGraph(h.edges), root, p.key, depth);
    forall j | n <= j < |h.edges|
      ensures PathFact(root, h.edges, h.edges[j])
    {
      if j == n {
        FinalPath(root, h.edges, final);
      } else {
        assert h.edges[j] == below.edges[j];
        PathFactGrows(root, below.edges, h.edges, below.edges[j]);
      }
    }
  }

  lemma {:induction false} FinalPath(root: Key, edges: seq<Edge>, e: Edge)
    requires e.depth >= 1 && e.state != Cycle && Walk(ResolvedGraph(edges), root, e.from, e.depth - 1)
    ensures PathFact(root, edges, e)
  {
  }
}
