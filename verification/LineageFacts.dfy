/** What the lineage walk records about its nodes and about each edge on its own. */
module LineageFacts {
  import opened Products
  import opened Compatibility
  import opened Lineage
  import opened LineageKeeps
  import TraceSpec
  import Versions

  /** The compatibility evaluator the registry is given. */
  ghost predicate Canonical(src: Source)
  {
    forall input, p :: src.evaluate(input, p) == InputCompatibility(input, p)
  }

  ghost predicate NodeFacts(root: Key, g: Walked, k: Key)
    requires k in g.nodes
  {
    var n := g.nodes[k];
    && n.key == k && k.ns == root.ns
    && (k in g.products <==> ObservedState(n.state))
    && (k !in g.products ==> n.state in TraceSpec.ReadFailures + {Timeout} && n.state in g.issues && n.version == "")
    && (k in g.products ==>
          g.products[k].key == k && DistinctPorts(g.products[k]) && n.version == g.products[k].version)
  }

  /** The books of the walk: every node is accounted for, and the verdict agrees with the issues. */
  ghost predicate Books(root: Key, g: Walked)
  {
    && Orderly(g)
    && |g.nodes| <= MAX_TRACE_PRODUCTS
    && g.visited + g.visiting <= g.products.Keys
    && (g.complete <==> g.issues == {})
    && (forall x :: x in g.issues ==> FailureState(x))
    && (forall k {:trigger g.nodes[k]} :: k in g.nodes ==> NodeFacts(root, g, k))
  }

  /** What a finished edge says, in terms of the state of the walk. */
  ghost predicate EdgeFacts(src: Source, root: Key, g: Walked, e: Edge)
  {
    && e.from in g.visited + g.visiting
    && 1 <= e.depth <= MAX_TRACE_DEPTH
    && (e.from == root ==> e.depth == 1)
    && (e.depth == MAX_TRACE_DEPTH ==> e.state == DepthLimit || e.state == CrossNamespace)
    && (e.state == Resolved ==>
          e.to in g.visited && Height(g, e.to) < Height(g, e.from) && e.compatibility != NotEvaluated)
    && (e.state != Resolved ==> FailureState(e.state) && e.state in g.issues)
    && (e.state == CrossNamespace <==> e.to.ns != root.ns)
    && (e.state in TraceSpec.ReadFailures + {CrossNamespace} ==> e.compatibility == NotEvaluated)
    && (e.state in TraceSpec.CachedFailures ==> e.to in g.nodes && g.nodes[e.to].state == e.state)
    && TargetFacts(src, g, e)
    && ContractFacts(g, e)
  }

  /** A failed target is the one its edge reports, now and for the rest of the walk. */
  ghost predicate TargetFacts(src: Source, g: Walked, e: Edge)
  {
    && (e.state in TraceSpec.ReadFailures + {Timeout} && e.to in g.nodes && e.to !in g.products ==>
          g.nodes[e.to].state == e.state)
    && (e.state in TraceSpec.ReadFailures + {Timeout} && e.to !in g.nodes ==>
          Late(src, g.clock) || |g.nodes| >= MAX_TRACE_PRODUCTS)
  }

  ghost predicate ContractFacts(g: Walked, e: Edge)
  {
    && (e.compatibility == Incompatible ==> e.requirement.Some?)
    && (e.compatibility == Compatible ==> e.to in g.products)
    && (e.compatibility == Compatible && e.requirement.Some? ==>
          Versions.CompatibleVersion(g.products[e.to].version, e.requirement.value.minimum))
  }

  ghost predicate AllFacts(src: Source, root: Key, n: nat, g: Walked)
  {
    forall j {:trigger g.edges[j]} :: n <= j < |g.edges| ==> EdgeFacts(src, root, g, g.edges[j])
  }

  /** Later is a state the walk can be in after g, with the same or more products finished. */
  ghost predicate Later(src: Source, g: Walked, h: Walked)
  {
    && g.visited <= h.visited && g.visited + g.visiting <= h.visited + h.visiting
    && SubNodes(g.nodes, h.nodes) && SubProducts(g.products, h.products)
    && g.issues <= h.issues && g.clock <= h.clock
    && (Late(src, g.clock) || |g.nodes| >= MAX_TRACE_PRODUCTS ==> h.nodes == g.nodes)
    && (forall k {:trigger Height(h, k)} :: k in g.visited ==> Height(h, k) == Height(g, k))
    && (forall k {:trigger Height(h, k)} :: k in g.visiting ==> Height(h, k) >= Height(g, k))
    && (forall k {:trigger k in h.products} :: k in g.nodes ==> (k in h.products <==> k in g.products))
  }

  lemma {:induction false} FactsLast(src: Source, root: Key, g: Walked, h: Walked, e: Edge)
    requires EdgeFacts(src, root, g, e) && Later(src, g, h) && |g.nodes| <= |h.nodes|
    ensures EdgeFacts(src, root, h, e)
  {
    hide DistinctPorts, Versions.CompatibleVersion;
    assert Height(h, e.from) >= Height(g, e.from);
  }

  lemma {:induction false} KeptIsLater(src: Source, root: Key, g: Walked, h: Walked, open: set<Key>)
    requires Kept(src, g, h, open) && Books(root, g) && Books(root, h)
    ensures Later(src, g, h) && |g.nodes| <= |h.nodes|
  {
    hide DistinctPorts;
    NodesCount(g.nodes, h.nodes);
    forall k | k in g.nodes
      ensures k in h.products <==> k in g.products
    {
      assert h.nodes[k] == g.nodes[k];
      assert NodeFacts(root, g, k) && NodeFacts(root, h, k);
    }
  }

  lemma {:induction false} NodesCount(a: map<Key, Node>, b: map<Key, Node>)
    requires a.Keys <= b.Keys
    ensures |a| <= |b|
  {
    assert b.Keys == a.Keys + (b.Keys - a.Keys);
    assert |b.Keys| == |a.Keys| + |b.Keys - a.Keys|;
  }

  /** Facts about edges recorded so far last while the walk goes on. */
  lemma {:induction false} AllFactsLast(src: Source, root: Key, n: nat, g: Walked, h: Walked)
    requires AllFacts(src, root, n, g) && Later(src, g, h) && |g.nodes| <= |h.nodes|
    requires Prefix(g.edges, h.edges)
    ensures forall j {:trigger h.edges[j]} :: n <= j < |g.edges| ==> EdgeFacts(src, root, h, h.edges[j])
  {
    hide EdgeFacts, Later;
    forall j | n <= j < |g.edges|
      ensures EdgeFacts(src, root, h, h.edges[j])
    {
      assert h.edges[j] == h.edges[..|g.edges|][j] == g.edges[j];
      FactsLast(src, root, g, h, g.edges[j]);
    }
  }

  // ---------------------------------------------------------------- books

  lemma {:induction false} TickBooks(root: Key, g: Walked)
    requires Books(root, g)
    ensures Books(root, Tick(g))
  {
    hide DistinctPorts;
    forall k | k in g.nodes
      ensures NodeFacts(root, Tick(g), k)
    {
      assert NodeFacts(root, g, k);
    }
  }

  /** A change that keeps the nodes, products and finished products, and may add an issue, keeps the books. */
  lemma {:induction false} SameBooks(root: Key, g: Walked, h: Walked)
    requires Books(root, g)
    requires h.nodes == g.nodes && h.products == g.products
    requires h.visited + h.visiting <= g.products.Keys && h.visited !! h.visiting
    requires g.issues <= h.issues && (h.complete <==> h.issues == {}) && forall x :: x in h.issues ==> FailureState(x)
    ensures Books(root, h)
  {
    hide DistinctPorts;
    forall k | k in h.nodes
      ensures NodeFacts(root, h, k)
    {
      assert NodeFacts(root, g, k);
    }
  }

  lemma {:induction false} IncompleteBooks(root: Key, g: Walked, issue: State)
    requires Books(root, g) && FailureState(issue)
    ensures Books(root, Incomplete(g, issue)) && Books(root, Incomplete(Tick(g), issue))
  {
    hide NodeFacts;
    SameBooks(root, g, Incomplete(g, issue));
    SameBooks(root, g, Incomplete(Tick(g), issue));
  }

  lemma {:induction false} ReadBooks(src: Source, root: Key, g: Walked, key: Key)
    requires Books(root, g) && key.ns == root.ns
    ensures Books(root, Read(src, g, key).0)
  {
    hide DistinctPorts, NodeFacts;
    IncompleteBooks(root, g, Timeout);
    IncompleteBooks(root, g, ProductLimit);
    TickBooks(root, g);
    if key !in g.nodes && !Late(src, g.clock) && |g.nodes| < MAX_TRACE_PRODUCTS {
      RecordBooks(src, root, Tick(g), key);
    }
  }

  lemma {:induction false} RecordBooks(src: Source, root: Key, g: Walked, key: Key)
    requires Books(root, g) && key.ns == root.ns && key !in g.nodes && |g.nodes| < MAX_TRACE_PRODUCTS
    ensures Books(root, Record(src, g, key))
  {
    hide NodeFacts;
    RecordShape(src, root, g, key);
    hide Record, Classify;
    var h := Record(src, g, key);
    RecordCounts(src, g, key);
    forall k | k in h.nodes
      ensures NodeFacts(root, h, k)
    {
      if k == key {
        RecordFacts(src, root, g, key);
      } else {
        assert NodeFacts(root, g, k);
        OtherFacts(root, g, h, k);
      }
    }
  }

  /** A record touches one node, at most one product, and the verdict with its issue. */
  lemma {:induction false} RecordShape(src: Source, root: Key, g: Walked, key: Key)
    requires Orderly(g) && key !in g.nodes && (g.complete <==> g.issues == {}) &&
             forall x :: x in g.issues ==> FailureState(x)
    ensures var h := Record(src, g, key);
            && h.visited == g.visited && h.visiting == g.visiting && g.issues <= h.issues
            && (h.complete <==> h.issues == {}) && (forall x :: x in h.issues ==> FailureState(x))
            && h.nodes == g.nodes[key := h.nodes[key]] && g.products.Keys <= h.products.Keys <= g.products.Keys + {key}
            && forall k {:trigger h.products[k]} {:trigger g.products[k]} :: k in g.products ==>
               h.products[k] == g.products[k]
  {
    hide Classify;
    RecordState(src, root, g, key);
  }

  lemma {:induction false} RecordState(src: Source, root: Key, g: Walked, key: Key)
    ensures ObservedState(Classify(src, g, key)) || FailureState(Classify(src, g, key))
    ensures ObservedState(Classify(src, g, key)) || Classify(src, g, key) in TraceSpec.ReadFailures
  {
    hide DistinctPorts;
  }

  lemma {:induction false} RecordFacts(src: Source, root: Key, g: Walked, key: Key)
    requires key.ns == root.ns && key !in g.nodes && key !in g.products
    ensures key in Record(src, g, key).nodes && NodeFacts(root, Record(src, g, key), key)
  {
    hide DistinctPorts;
  }

  lemma {:induction false} OtherFacts(root: Key, g: Walked, h: Walked, k: Key)
    requires k in g.nodes && k in h.nodes && NodeFacts(root, g, k) && h.nodes[k] == g.nodes[k] && g.issues <= h.issues
    requires k in h.products <==> k in g.products
    requires k in g.products ==> h.products[k] == g.products[k]
    ensures NodeFacts(root, h, k)
  {
    hide DistinctPorts;
  }

  /** The result of a read: the product with its node, or the failure recorded for it. */
  ghost predicate ReadOutcome(src: Source, h: Walked, state: State, key: Key)
  {
    && (key in h.nodes ==> h.nodes[key].state == state)
    && (key in h.products ==> key in h.nodes && h.products[key].key == key && DistinctPorts(h.products[key]))
    && (key !in h.products ==> state in TraceSpec.ReadFailures + {Timeout} && state in h.issues)
    && (key !in h.nodes ==> (state == Timeout && Late(src, h.clock)) ||
                             (state == ProductLimit && |h.nodes| >= MAX_TRACE_PRODUCTS))
  }

  lemma {:induction false} ReadResult(src: Source, root: Key, g: Walked, key: Key)
    requires Books(root, g) && key.ns == root.ns
    ensures Books(root, Read(src, g, key).0)
    ensures ReadOutcome(src, Read(src, g, key).0, Read(src, g, key).1, key)
  {
    ReadBooks(src, root, g, key);
    var (h, state) := Read(src, g, key);
    hide DistinctPorts, Record;
    if key in h.nodes {
      assert NodeFacts(root, h, key);
    }
    if key !in g.nodes && !Late(src, g.clock) && |g.nodes| < MAX_TRACE_PRODUCTS {
      RecordCounts(src, Tick(g), key);
    }
  }

  // ---------------------------------------------------------------- every edge

  /** The product being visited was read, lies in the root's namespace, and is the root only at depth 0. */
  ghost predicate Placed(root: Key, g: Walked, p: Product, depth: nat)
  {
    && p.key in g.products && g.products[p.key] == p
    && (p.key == root ==> depth == 0 || root in g.visiting)
    && (depth > 0 ==> root in g.visiting)
  }

  /** The product being expanded is open and so is the root. */
  ghost predicate Expanding(root: Key, g: Walked, p: Product, depth: nat)
  {
    && p.key in g.products && g.products[p.key] == p
    && p.key in g.visiting && root in g.visiting
    && (p.key == root ==> depth == 0)
    && depth < MAX_TRACE_DEPTH
  }

  lemma {:induction false} PlacedNamespace(root: Key, g: Walked, k: Key)
    requires Books(root, g) && k in g.products
    ensures k.ns == root.ns
  {
    hide DistinctPorts;
    assert NodeFacts(root, g, k);
  }

  lemma {:induction false} VisitFacts(src: Source, root: Key, g: Walked, p: Product, depth: nat)
    requires Canonical(src) && Books(root, g) && Placed(root, g, p, depth)
    requires depth == 0 ==> p.key == root
    ensures var h := Visit(src, g, p, depth).0;
            Books(root, h) && AllFacts(src, root, |g.edges|, h)
    decreases Remaining(depth), 2, 0
  {
    hide Canonical, NodeFacts, VisitInputs, EdgeFacts;
    IncompleteBooks(root, g, Timeout);
    IncompleteBooks(root, g, Cycle);
    IncompleteBooks(root, g, DepthLimit);
    TickBooks(root, g);
    if !Late(src, g.clock) && p.key !in g.visiting && depth < MAX_TRACE_DEPTH && p.key !in g.visited {
      var open := Tick(g).(visiting := g.visiting + {p.key});
      SameBooks(root, g, open);
      VisitInputsFacts(src, root, open, p, depth, SortedInputs(p));
      VisitInputsKeeps(src, open, p, depth, SortedInputs(p));
      var done := VisitInputs(src, open, p, depth, SortedInputs(p));
      CloseFacts(src, root, g, open, done, p.key);
    }
  }

  lemma {:induction false} CloseFacts(src: Source, root: Key, g: Walked, open: Walked, done: Walked, key: Key)
    requires Books(root, done) && AllFacts(src, root, |g.edges|, done) && key in open.visiting
    requires Kept(src, open, done, open.visiting - {key})
    ensures var h := done.(visiting := done.visiting - {key}, visited := done.visited + {key});
            Books(root, h) && AllFacts(src, root, |g.edges|, h)
  {
    var h := done.(visiting := done.visiting - {key}, visited := done.visited + {key});
    VisitingKept(src, open, done, open.visiting - {key});
    assert h.visited + h.visiting == done.visited + done.visiting;
    SameBooks(root, done, h);
    CloseIsLater(src, done, h, key);
    hide EdgeFacts, NodeFacts, Later;
    forall j | |g.edges| <= j < |h.edges|
      ensures EdgeFacts(src, root, h, h.edges[j])
    {
      FactsLast(src, root, done, h, done.edges[j]);
    }
  }

  lemma {:induction false} CloseIsLater(src: Source, done: Walked, h: Walked, key: Key)
    requires key in done.visiting && h == done.(visiting := done.visiting - {key}, visited := done.visited + {key})
    ensures Later(src, done, h)
  {
    assert forall k :: Height(h, k) == Height(done, k);
  }

  lemma {:induction false} VisitInputsFacts(src: Source, root: Key, g: Walked, p: Product, depth: nat,
                                            inputs: seq<Input>)
    requires depth < MAX_TRACE_DEPTH
    requires Canonical(src) && Books(root, g) && Expanding(root, g, p, depth)
    ensures var h := VisitInputs(src, g, p, depth, inputs);
            Books(root, h) && AllFacts(src, root, |g.edges|, h)
    decreases Remaining(depth), 1, |inputs|
  {
    hide Canonical, NodeFacts, Inspect, EdgeFacts;
    IncompleteBooks(root, g, EdgeLimit);
    IncompleteBooks(root, g, Timeout);
    if inputs != [] && |g.edges| < MAX_TRACE_EDGES && !Late(src, g.clock) {
      TickBooks(root, g);
      InspectFacts(src, root, Tick(g), p, depth, inputs[0]);
      InspectKeeps(src, Tick(g), p, depth, inputs[0]);
      var next := Inspect(src, Tick(g), p, depth, inputs[0]);
      ExpandingKept(src, root, Tick(g), next, p, depth);
      VisitInputsFacts(src, root, next, p, depth, inputs[1..]);
      VisitInputsKeeps(src, next, p, depth, inputs[1..]);
      var h := VisitInputs(src, next, p, depth, inputs[1..]);
      FactsJoin(src, root, g, next, h, next.visiting - {p.key});
    }
  }

  lemma {:induction false} ExpandingKept(src: Source, root: Key, g: Walked, h: Walked, p: Product, depth: nat)
    requires Expanding(root, g, p, depth) && Kept(src, g, h, g.visiting - {p.key})
    ensures Expanding(root, h, p, depth)
  {
    assert h.products[p.key] == g.products[p.key];
  }

  lemma {:induction false} FactsJoin(src: Source, root: Key, g: Walked, m: Walked, h: Walked, open: set<Key>)
    requires Books(root, m) && Books(root, h) && |g.edges| <= |m.edges|
    requires AllFacts(src, root, |g.edges|, m) && AllFacts(src, root, |m.edges|, h) && Kept(src, m, h, open)
    ensures AllFacts(src, root, |g.edges|, h)
  {
    KeptIsLater(src, root, m, h, open);
    hide EdgeFacts, NodeFacts, Later, HeightsKept;
    AllFactsLast(src, root, |g.edges|, m, h);
  }

  lemma {:induction false} InspectFacts(src: Source, root: Key, g: Walked, p: Product, depth: nat, input: Input)
    requires depth < MAX_TRACE_DEPTH
    requires Canonical(src) && Books(root, g) && Expanding(root, g, p, depth)
    ensures var h := Inspect(src, g, p, depth, input);
            Books(root, h) && AllFacts(src, root, |g.edges|, h) && |g.edges| < |h.edges|
    decreases Remaining(depth), 0, 0
  {
    hide Canonical, NodeFacts, Visit, Read, Rewrite, Raise, EdgeFacts, Kept, HeightsKept, Grows;
    var edge := NewEdge(p, depth, input);
    var emitted := g.(edges := g.edges + [edge]);
    PlacedNamespace(root, g, p.key);
    SameBooks(root, g, emitted);
    if edge.to.ns != p.key.ns {
      EmitFacts(src, root, g, p, depth, input, CrossNamespace);
    } else if depth + 1 >= MAX_TRACE_DEPTH {
      EmitFacts(src, root, g, p, depth, input, DepthLimit);
    } else {
      ReadResult(src, root, emitted, edge.to);
      ReadGrows(src, emitted, edge.to);
      var (found, state) := Read(src, emitted, edge.to);
      assert Kept(src, emitted, found, emitted.visiting) by { KeptIs(src, emitted, found, emitted.visiting); }
      ReadEdges(src, emitted, edge.to);
      if edge.to !in found.products {
        FailedFacts(src, root, g, found, p, depth, input, state);
      } else {
        var contracted := Evaluated(src.evaluate(input, found.products[edge.to]));
        CanonicalNever(src, input, found.products[edge.to]);
        PlacedBelow(src, root, emitted, found, p, depth, edge.to);
        VisitFacts(src, root, found, found.products[edge.to], depth + 1);
        VisitKeeps(src, found, found.products[edge.to], depth + 1);
        VisitStates(src, root, found, found.products[edge.to], depth + 1);
        var (below, reached) := Visit(src, found, found.products[edge.to], depth + 1);
        VisitingKept(src, emitted, found, emitted.visiting);
        KeptTrans(src, emitted, found, below, emitted.visiting);
        ReachedProduct(src, found, below, edge.to, found.visiting);
        ReachedFacts(src, root, g, below, p, depth, input, reached, contracted);
      }
    }
  }

  lemma {:induction false} ReadEdges(src: Source, g: Walked, key: Key)
    ensures Read(src, g, key).0.edges == g.edges
  {
    hide Classify;
  }

  lemma {:induction false} CanonicalNever(src: Source, input: Input, p: Product)
    requires Canonical(src)
    ensures Evaluated(src.evaluate(input, p)) != NotEvaluated
    ensures Evaluated(src.evaluate(input, p)) == Incompatible ==> input.contract.Some?
    ensures Evaluated(src.evaluate(input, p)) == Compatible && input.contract.Some? ==>
              Versions.CompatibleVersion(p.version, input.contract.value.minimum)
  {
    hide Versions.CompatibleVersion, InputCompatibility;
    assert src.evaluate(input, p) == InputCompatibility(input, p);
  }

  lemma {:induction false} PlacedBelow(src: Source, root: Key, g: Walked, found: Walked, p: Product, depth: nat,
                                       key: Key)
    requires Expanding(root, g, p, depth) && Kept(src, g, found, g.visiting) && Books(root, found) &&
             key in found.products
    ensures Placed(root, found, found.products[key], depth + 1)
  {
    VisitingKept(src, g, found, g.visiting);
    hide DistinctPorts, Grows;
    assert NodeFacts(root, found, key);
  }

  /** An activation reports a resolved producer or a recorded failure of the traversal. */
  lemma {:induction false} VisitStates(src: Source, root: Key, g: Walked, p: Product, depth: nat)
    ensures var (h, state) := Visit(src, g, p, depth);
            state == Resolved || (state in {Timeout, Cycle, DepthLimit} && state in h.issues)
  {
    hide VisitInputs;
  }

  lemma {:induction false} EmitFacts(src: Source, root: Key, g: Walked, p: Product, depth: nat, input: Input,
                                     issue: State)
    requires Books(root, g) && Expanding(root, g, p, depth) && p.key.ns == root.ns
    requires issue == CrossNamespace || issue == DepthLimit
    requires issue == CrossNamespace <==> Target(p.key, input).ns != p.key.ns
    ensures var h := Incomplete(Rewrite(g.(edges := g.edges + [NewEdge(p, depth, input)]), |g.edges|,
                                        NewEdge(p, depth, input).(state := issue)), issue);
            Books(root, h) && AllFacts(src, root, |g.edges|, h) && |g.edges| < |h.edges|
  {
    var h := Incomplete(Rewrite(g.(edges := g.edges + [NewEdge(p, depth, input)]), |g.edges|,
                                NewEdge(p, depth, input).(state := issue)), issue);
    hide NodeFacts, EdgeFacts, AllFacts;
    SameBooks(root, g, h);
    hide Books;
    var final := NewEdge(p, depth, input).(state := issue);
    assert h.edges == g.edges + [final];
    StoppedEdge(src, root, h, final);
    OneNewFact(src, root, g, h, final);
  }

  /** Facts about the only new edge are facts about all new edges. */
  lemma {:induction false} OneNewFact(src: Source, root: Key, g: Walked, h: Walked, e: Edge)
    requires h.edges == g.edges + [e] && EdgeFacts(src, root, h, e)
    ensures AllFacts(src, root, |g.edges|, h) && |g.edges| < |h.edges|
  {
    hide EdgeFacts;
  }

  lemma {:induction false} FailedFacts(src: Source, root: Key, g: Walked, found: Walked, p: Product, depth: nat,
                                       input: Input, state: State)
    requires Books(root, found) && Expanding(root, g, p, depth) && p.key.ns == root.ns
    requires found.edges == g.edges + [NewEdge(p, depth, input)] && found.visited == g.visited &&
             found.visiting == g.visiting
    requires ReadOutcome(src, found, state, Target(p.key, input)) && Target(p.key, input) !in found.products
    requires Target(p.key, input).ns == root.ns && depth + 1 < MAX_TRACE_DEPTH
    ensures var h := Rewrite(found, |g.edges|, NewEdge(p, depth, input).(state := state));
            Books(root, h) && AllFacts(src, root, |g.edges|, h) && |g.edges| < |h.edges|
  {
    var h := Rewrite(found, |g.edges|, NewEdge(p, depth, input).(state := state));
    hide NodeFacts, DistinctPorts, EdgeFacts, AllFacts;
    SameBooks(root, found, h);
    var final := NewEdge(p, depth, input).(state := state);
    assert h.edges == g.edges + [final];
    hide Books;
    FailedEdge(src, root, h, final);
    OneNewFact(src, root, g, h, final);
  }

  lemma {:induction false} FailedEdge(src: Source, root: Key, h: Walked, e: Edge)
    requires ReadOutcome(src, h, e.state, e.to) && e.to !in h.products
    requires e.from in h.visiting && 1 <= e.depth < MAX_TRACE_DEPTH && (e.from == root ==> e.depth == 1)
    requires e.to.ns == root.ns && e.compatibility == NotEvaluated
    ensures EdgeFacts(src, root, h, e)
  {
    hide DistinctPorts, Versions.CompatibleVersion;
  }

  lemma {:induction false} StoppedEdge(src: Source, root: Key, h: Walked, e: Edge)
    requires e.from in h.visiting && 1 <= e.depth <= MAX_TRACE_DEPTH && (e.from == root ==> e.depth == 1)
    requires e.state in {CrossNamespace, DepthLimit} && e.state in h.issues
    requires e.state == CrossNamespace <==> e.to.ns != root.ns
    requires e.compatibility == NotEvaluated
    ensures EdgeFacts(src, root, h, e)
  {
  }

  lemma {:induction false} ReachedProduct(src: Source, found: Walked, below: Walked, key: Key, open: set<Key>)
    requires Kept(src, found, below, open) && key in found.products
    ensures key in below.products && below.products[key] == found.products[key]
  {
  }

  /** Raising a consumer's height changes nothing about finished products. */
  lemma {:induction false} RaiseIsLater(src: Source, below: Walked, h: Walked, key: Key, producer: Key)
    requires key in below.visiting && Orderly(below)
    requires h == Raise(below, key, producer).(edges := h.edges)
    ensures Later(src, below, h) && Height(h, key) >= 1 + Height(below, producer)
    ensures producer in below.visited ==> Height(h, producer) == Height(below, producer)
  {
    assert forall k {:trigger Height(h, k)} :: k != key ==> Height(h, k) == Height(below, k);
  }

  lemma {:induction false} ReachedFacts(src: Source, root: Key, g: Walked, below: Walked, p: Product, depth: nat,
                                        input: Input,
                     reached: State, contracted: Contracted)
    requires Books(root, below) && Expanding(root, g, p, depth) && p.key.ns == root.ns && depth + 1 < MAX_TRACE_DEPTH
    requires var edge := NewEdge(p, depth, input);
             && edge.to.ns == root.ns && edge.to in below.products
             && Kept(src, g.(edges := g.edges + [edge]), below, g.visiting)
             && (reached == Resolved ==> edge.to in below.visited)
             && (reached != Resolved ==> reached in {Timeout, Cycle, DepthLimit} && reached in below.issues)
             && contracted != NotEvaluated
             && (contracted == Incompatible ==> input.contract.Some?)
             && (contracted == Compatible && input.contract.Some? ==>
                   Versions.CompatibleVersion(below.products[edge.to].version, input.contract.value.minimum))
    requires AllFacts(src, root, |g.edges| + 1, below)
    ensures var edge := NewEdge(p, depth, input);
            var h := Rewrite(Raise(below, p.key, edge.to), |g.edges|,
                             edge.(state := reached, compatibility := contracted));
            Books(root, h) && AllFacts(src, root, |g.edges|, h) && |g.edges| < |h.edges|
  {
    var edge := NewEdge(p, depth, input);
    var final := edge.(state := reached, compatibility := contracted);
    RewriteKeeps(src, g, edge, below, final, g.visiting);
    var h := Rewrite(Raise(below, p.key, edge.to), |g.edges|, final);
    VisitingKept(src, g.(edges := g.edges + [edge]), below, g.visiting);
    hide NodeFacts, Kept, Versions.CompatibleVersion;
    SameBooks(root, below, h);
    RaiseIsLater(src, below, h, p.key, edge.to);
    assert EdgeFacts(src, root, h, final) by {
      hide Later, AllFacts;
      FinalFacts(src, root, below, h, final);
    }
    hide EdgeFacts, Later;
    forall j | |g.edges| <= j < |h.edges|
      ensures EdgeFacts(src, root, h, h.edges[j])
    {
      if j > |g.edges| {
        assert h.edges[j] == below.edges[j];
        FactsLast(src, root, below, h, below.edges[j]);
      }
    }
  }

  lemma {:induction false} FinalFacts(src: Source, root: Key, below: Walked, h: Walked, e: Edge)
    requires Books(root, h) && e.from in h.visiting && h.issues == below.issues && h.visited == below.visited
    requires h.products == below.products && h.nodes == below.nodes
    requires 1 <= e.depth < MAX_TRACE_DEPTH && (e.from == root ==> e.depth == 1)
    requires e.to.ns == root.ns && e.to in h.products
    requires e.state == Resolved ==> e.to in h.visited && Height(h, e.to) < Height(h, e.from)
    requires e.state != Resolved ==> e.state in {Timeout, Cycle, DepthLimit} && e.state in h.issues
    requires e.compatibility != NotEvaluated
    requires e.compatibility == Incompatible ==> e.requirement.Some?
    requires e.compatibility == Compatible && e.requirement.Some? ==>
               Versions.CompatibleVersion(h.products[e.to].version, e.requirement.value.minimum)
    ensures EdgeFacts(src, root, h, e)
  {
    hide DistinctPorts, Versions.CompatibleVersion;
    assert e.to in h.nodes;
  }
}
