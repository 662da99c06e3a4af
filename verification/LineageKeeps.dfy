/** What every part of the lineage walk keeps of the state it starts in, whatever fails on the way. */
module LineageKeeps {
  import opened Products
  import opened Compatibility
  import opened Lineage

  ghost predicate Prefix(a: seq<Edge>, b: seq<Edge>)
  {
    |a| <= |b| && b[..|a|] == a
  }

  ghost predicate SubNodes(a: map<Key, Node>, b: map<Key, Node>)
  {
    a.Keys <= b.Keys && forall k {:trigger b[k]} :: k in a ==> b[k] == a[k]
  }

  ghost predicate SubProducts(a: map<Key, Product>, b: map<Key, Product>)
  {
    a.Keys <= b.Keys && forall k {:trigger b[k]} :: k in a ==> b[k] == a[k]
  }

  /** The walk only adds: edges at the end, nodes, products, finished products, issues. */
  ghost predicate Grows(src: Source, g: Walked, h: Walked)
  {
    && Prefix(g.edges, h.edges)
    && SubNodes(g.nodes, h.nodes)
    && SubProducts(g.products, h.products)
    && h.visiting == g.visiting
    && g.visited <= h.visited
    && g.issues <= h.issues
    && g.clock <= h.clock
    && (h.complete ==> g.complete)
    && (Late(src, g.clock) || |g.nodes| >= MAX_TRACE_PRODUCTS ==> h.nodes == g.nodes)
  }

  /** Heights of finished products and of open ones other than `open` stay. */
  ghost predicate HeightsKept(g: Walked, h: Walked, open: set<Key>)
  {
    && (forall k {:trigger Height(h, k)} :: k in g.visited || k in open ==> Height(h, k) == Height(g, k))
    && (forall k {:trigger Height(h, k)} :: k in g.visiting ==> Height(h, k) >= Height(g, k))
  }

  lemma {:induction false} GrowsRefl(src: Source, g: Walked)
    ensures Grows(src, g, g) && HeightsKept(g, g, g.visiting)
  {
  }

  lemma {:induction false} GrowsTrans(src: Source, g: Walked, m: Walked, h: Walked)
    requires Grows(src, g, m) && Grows(src, m, h)
    ensures Grows(src, g, h)
  {
    assert h.edges[..|g.edges|] == m.edges[..|g.edges|];
  }

  lemma {:induction false} HeightsTrans(g: Walked, m: Walked, h: Walked, open: set<Key>)
    requires HeightsKept(g, m, open) && HeightsKept(m, h, open)
    requires g.visited <= m.visited && m.visiting == g.visiting
    ensures HeightsKept(g, h, open)
  {
    forall k | k in g.visited || k in open
      ensures Height(h, k) == Height(g, k)
    {
      assert Height(h, k) == Height(m, k);
    }
    forall k | k in g.visiting
      ensures Height(h, k) >= Height(g, k)
    {
      assert Height(h, k) >= Height(m, k);
    }
  }

  lemma {:induction false} IncompleteGrows(src: Source, g: Walked, issue: State)
    ensures Grows(src, g, Incomplete(g, issue)) && HeightsKept(g, Incomplete(g, issue), g.visiting)
    ensures Grows(src, g, Tick(g)) && HeightsKept(g, Tick(g), g.visiting)
    ensures Grows(src, g, Incomplete(Tick(g), issue)) && HeightsKept(g, Incomplete(Tick(g), issue), g.visiting)
  {
  }

  lemma {:induction false} RecordGrows(src: Source, g: Walked, key: Key)
    requires key !in g.nodes && key !in g.products && |g.nodes| < MAX_TRACE_PRODUCTS
    ensures var h := Record(src, g, key);
            && Prefix(g.edges, h.edges) && SubNodes(g.nodes, h.nodes) && SubProducts(g.products, h.products)
            && h.visiting == g.visiting && h.visited == g.visited && h.heights == g.heights && h.edges == g.edges
            && g.issues <= h.issues && g.clock <= h.clock && (h.complete ==> g.complete)
            && key in h.nodes
  {
    hide Classify, ObservedState;
  }

  lemma {:induction false} RecordCounts(src: Source, g: Walked, key: Key)
    requires key !in g.nodes
    ensures |Record(src, g, key).nodes| == |g.nodes| + 1
    ensures Record(src, g, key).nodes.Keys == g.nodes.Keys + {key}
  {
    hide Classify, ObservedState;
    var h := Record(src, g, key);
    assert h.nodes.Keys == g.nodes.Keys + {key};
    assert |h.nodes.Keys| == |g.nodes.Keys| + 1;
  }

  /** What a read leaves alone. */
  ghost predicate ReadOnly(g: Walked, h: Walked)
  {
    h.heights == g.heights && h.edges == g.edges && h.visited == g.visited && h.visiting == g.visiting
  }

  lemma {:induction false} ReadGrows(src: Source, g: Walked, key: Key)
    requires g.products.Keys <= g.nodes.Keys
    ensures var h := Read(src, g, key).0;
            Grows(src, g, h) && ReadOnly(g, h) && HeightsKept(g, h, g.visiting)
  {
    hide Record, SubNodes, SubProducts, Prefix;
    var h := Read(src, g, key).0;
    IncompleteGrows(src, g, Timeout);
    IncompleteGrows(src, g, ProductLimit);
    GrowsRefl(src, g);
    if key !in g.nodes && !Late(src, g.clock) && |g.nodes| < MAX_TRACE_PRODUCTS {
      RecordGrows(src, Tick(g), key);
    }
    assert forall k :: Height(h, k) == Height(g, k);
  }

  /** Every product that was read has a node, and none is open and finished at once. */
  ghost predicate Orderly(g: Walked)
  {
    g.products.Keys <= g.nodes.Keys && g.visited !! g.visiting
  }

  lemma {:induction false} ReadOrderly(src: Source, g: Walked, key: Key)
    requires Orderly(g)
    ensures Orderly(Read(src, g, key).0)
  {
    hide Classify;
  }

  /** What one activation or one input keeps. */
  ghost predicate Kept(src: Source, g: Walked, h: Walked, open: set<Key>)
  {
    Grows(src, g, h) && HeightsKept(g, h, open) && Orderly(h)
  }

  lemma {:induction false} VisitKeeps(src: Source, g: Walked, p: Product, depth: nat)
    requires Orderly(g)
    ensures var (h, state) := Visit(src, g, p, depth);
            && Kept(src, g, h, g.visiting)
            && (state != Resolved ==>
                  h.edges == g.edges && h.nodes == g.nodes && h.visited == g.visited && h.heights == g.heights)
            && (state == Resolved ==> p.key in h.visited)
    decreases Remaining(depth), 2, 0
  {
    hide VisitInputs, SortedInputs, Grows, HeightsKept;
    IncompleteGrows(src, g, Timeout);
    IncompleteGrows(src, g, Cycle);
    IncompleteGrows(src, g, DepthLimit);
    if !Late(src, g.clock) && p.key !in g.visiting && depth < MAX_TRACE_DEPTH && p.key !in g.visited {
      var open := Tick(g).(visiting := g.visiting + {p.key});
      VisitInputsKeeps(src, open, p, depth, SortedInputs(p));
      var done := VisitInputs(src, open, p, depth, SortedInputs(p));
      CloseKeeps(src, g, open, done, p.key);
    }
  }

  lemma {:induction false} CloseKeeps(src: Source, g: Walked, open: Walked, done: Walked, key: Key)
    requires key !in g.visiting && key !in g.visited
    requires open == Tick(g).(visiting := g.visiting + {key})
    requires Kept(src, open, done, open.visiting - {key})
    ensures Kept(src, g, done.(visiting := done.visiting - {key}, visited := done.visited + {key}), g.visiting)
  {
    var h := done.(visiting := done.visiting - {key}, visited := done.visited + {key});
    assert forall k :: Height(open, k) == Height(g, k) && Height(h, k) == Height(done, k);
    assert open.visiting - {key} == g.visiting;
  }

  lemma {:induction false} VisitInputsKeeps(src: Source, g: Walked, p: Product, depth: nat, inputs: seq<Input>)
    requires depth < MAX_TRACE_DEPTH && Orderly(g) && p.key in g.visiting
    ensures Kept(src, g, VisitInputs(src, g, p, depth, inputs), g.visiting - {p.key})
    decreases Remaining(depth), 1, |inputs|
  {
    hide Inspect, Grows, HeightsKept;
    var others := g.visiting - {p.key};
    if inputs == [] {
      GrowsRefl(src, g);
      KeptRefl(src, g, others);
    } else if |g.edges| >= MAX_TRACE_EDGES {
      KeptIncomplete(src, g, EdgeLimit, others);
    } else if Late(src, g.clock) {
      KeptIncomplete(src, g, Timeout, others);
    } else {
      KeptIncomplete(src, g, Timeout, others);
      InspectKeeps(src, Tick(g), p, depth, inputs[0]);
      var next := Inspect(src, Tick(g), p, depth, inputs[0]);
      KeptTrans(src, g, Tick(g), next, others);
      assert next.visiting == g.visiting by { VisitingKept(src, g, next, others); }
      VisitInputsKeeps(src, next, p, depth, inputs[1..]);
      KeptTrans(src, g, next, VisitInputs(src, next, p, depth, inputs[1..]), others);
    }
  }

  lemma {:induction false} KeptRefl(src: Source, g: Walked, open: set<Key>)
    requires Orderly(g) && open <= g.visiting
    ensures Kept(src, g, g, open)
  {
  }

  lemma {:induction false} KeptIncomplete(src: Source, g: Walked, issue: State, open: set<Key>)
    requires Orderly(g) && open <= g.visiting
    ensures Kept(src, g, Incomplete(g, issue), open) && Kept(src, g, Tick(g), open)
    ensures Kept(src, g, Incomplete(Tick(g), issue), open)
  {
  }

  lemma {:induction false} KeptTrans(src: Source, g: Walked, m: Walked, h: Walked, open: set<Key>)
    requires Kept(src, g, m, open) && Kept(src, m, h, open)
    ensures Kept(src, g, h, open)
  {
    assert g.visited <= m.visited && m.visiting == g.visiting;
    GrowsTrans(src, g, m, h);
    hide Grows;
    HeightsTrans(g, m, h, open);
  }

  /** Emitting an edge, whatever is done in between, and rewriting it, adds one edge before the others. */
  lemma {:induction false} RewriteKeeps(src: Source, g: Walked, edge: Edge, below: Walked, final: Edge, open: set<Key>)
    requires Kept(src, g.(edges := g.edges + [edge]), below, open)
    ensures Kept(src, g, Rewrite(below, |g.edges|, final), open)
    ensures |g.edges| < |below.edges|
  {
    var h := Rewrite(below, |g.edges|, final);
    assert below.edges[..|g.edges| + 1] == g.edges + [edge];
    assert h.edges[..|g.edges|] == below.edges[..|g.edges|] == g.edges;
    assert forall k :: Height(h, k) == Height(below, k);
    assert forall k :: Height(g.(edges := g.edges + [edge]), k) == Height(g, k);
  }

  lemma {:induction false} RaiseKeeps(src: Source, g: Walked, below: Walked, key: Key, producer: Key)
    requires Kept(src, g, below, g.visiting) && key in g.visiting && key !in g.visited
    ensures Kept(src, g, Raise(below, key, producer), g.visiting - {key})
  {
    var h := Raise(below, key, producer);
    assert forall k {:trigger Height(h, k)} :: k != key ==> Height(h, k) == Height(below, k);
    assert Height(h, key) >= Height(below, key);
  }

  lemma {:induction false} KeptFewer(src: Source, g: Walked, h: Walked, open: set<Key>, fewer: set<Key>)
    requires Kept(src, g, h, open) && fewer <= open
    ensures Kept(src, g, h, fewer)
  {
  }

  lemma {:induction false} InspectKeeps(src: Source, g: Walked, p: Product, depth: nat, input: Input)
    requires depth < MAX_TRACE_DEPTH && Orderly(g) && p.key in g.visiting
    ensures Kept(src, g, Inspect(src, g, p, depth, input), g.visiting - {p.key})
    decreases Remaining(depth), 0, 0
  {
    hide Visit, Read, Rewrite, Raise, Kept, Grows, HeightsKept, Target;
    var edge := NewEdge(p, depth, input);
    var emitted := g.(edges := g.edges + [edge]);
    var others := g.visiting - {p.key};
    if edge.to.ns != p.key.ns {
      EmitOnly(src, g, edge, edge.(state := CrossNamespace), CrossNamespace, others);
    } else if depth + 1 >= MAX_TRACE_DEPTH {
      EmitOnly(src, g, edge, edge.(state := DepthLimit), DepthLimit, others);
    } else {
      ReadGrows(src, emitted, edge.to);
      ReadOrderly(src, emitted, edge.to);
      var (found, state) := Read(src, emitted, edge.to);
      assert Kept(src, emitted, found, emitted.visiting) by { KeptIs(src, emitted, found, emitted.visiting); }
      KeptFewer(src, emitted, found, emitted.visiting, others);
      if edge.to !in found.products {
        RewriteKeeps(src, g, edge, found, edge.(state := state), others);
      } else {
        var contracted := Evaluated(src.evaluate(input, found.products[edge.to]));
        if contracted == NotEvaluated {
          KeptIncomplete(src, found, Unavailable, found.visiting);
          assert found.visiting == g.visiting by { VisitingKept(src, emitted, found, emitted.visiting); }
          KeptTrans(src, emitted, found, Incomplete(found, Unavailable), emitted.visiting);
          RaiseKeeps(src, emitted, Incomplete(found, Unavailable), p.key, edge.to);
          RewriteKeeps(src, g, edge, Raise(Incomplete(found, Unavailable), p.key, edge.to), edge.(state := Unavailable),
                       others);
        } else {
          VisitKeeps(src, found, found.products[edge.to], depth + 1);
          var (below, reached) := Visit(src, found, found.products[edge.to], depth + 1);
          assert found.visiting == g.visiting by { VisitingKept(src, emitted, found, emitted.visiting); }
          KeptTrans(src, emitted, found, below, emitted.visiting);
          RaiseKeeps(src, emitted, below, p.key, edge.to);
          RewriteKeeps(src, g, edge, Raise(below, p.key, edge.to), edge.(state := reached, compatibility := contracted),
                       others);
        }
      }
    }
  }

  lemma {:induction false} KeptIs(src: Source, g: Walked, h: Walked, open: set<Key>)
    requires Grows(src, g, h) && HeightsKept(g, h, open) && Orderly(h)
    ensures Kept(src, g, h, open)
  {
  }

  lemma {:induction false} VisitingKept(src: Source, g: Walked, h: Walked, open: set<Key>)
    requires Kept(src, g, h, open)
    ensures h.visiting == g.visiting
  {
  }

  lemma {:induction false} EmitOnly(src: Source, g: Walked, edge: Edge, final: Edge, issue: State, open: set<Key>)
    requires Orderly(g) && open <= g.visiting
    ensures Kept(src, g, Incomplete(Rewrite(g.(edges := g.edges + [edge]), |g.edges|, final), issue), open)
  {
    var emitted := g.(edges := g.edges + [edge]);
    KeptRefl(src, emitted, open);
    RewriteKeeps(src, g, edge, emitted, final, open);
    var h := Rewrite(emitted, |g.edges|, final);
    KeptIncomplete(src, h, issue, open);
    hide Grows, HeightsKept;
    KeptTrans(src, g, h, Incomplete(h, issue), open);
  }
}
