/** What a lineage walk that stays complete has emitted, read and measured. */
module LineageAccount {
  import opened Products
  import opened Compatibility
  import opened Digraph
  import opened Lineage
  import opened LineageKeeps
  import opened LineageFacts
  import opened LineageLedger
  import Order
  import Sums

  /** The products a reader would be shown: found under their own identity. */
  function Shown(src: Source): Store
  {
    map k | k in src.answers && src.answers[k].Found? && src.answers[k].product.key == k :: src.answers[k].product
  }

  /** Encoded sizes of the shown products that can be encoded. */
  function Sizes(src: Source): map<Key, nat>
  {
    map k | k in Shown(src) && src.answers[k].encoded.Some? :: src.answers[k].encoded.value
  }

  /** A product that can take part in a trace. */
  predicate Publishable(src: Source, k: Key)
  {
    k in Shown(src) && k in Sizes(src) && DistinctPorts(Shown(src)[k])
  }

  /** Reads are faithful, and the retained metadata is what was read. */
  ghost predicate Measured(src: Source, g: Walked)
  {
    && g.products.Keys <= Shown(src).Keys && g.products.Keys <= Sizes(src).Keys
    && (forall k {:trigger g.products[k]} :: k in g.products ==> g.products[k] == Shown(src)[k] && Publishable(src, k))
    && g.retained == Sums.Total(Sizes(src), g.products.Keys)
    && g.retained <= MAX_TRACE_METADATA
    && (g.complete ==> g.nodes.Keys <= g.products.Keys)
  }

  /** A product that was recorded is one a reader would be shown. */
  lemma {:induction false} RecordShown(src: Source, g: Walked, key: Key)
    requires !Late(src, g.clock) && ObservedState(Classify(src, g, key))
    ensures Publishable(src, key) && Shown(src)[key] == src.answers[key].product
    ensures Sizes(src)[key] == src.answers[key].encoded.value
    ensures g.retained + Sizes(src)[key] <= MAX_TRACE_METADATA
  {
    hide DistinctPorts;
  }

  lemma {:induction false} RecordMeasured(src: Source, g: Walked, key: Key)
    requires Measured(src, g) && key !in g.products
    ensures Measured(src, Record(src, g, key))
  {
    hide DistinctPorts, Shown, Sizes, Publishable;
    var h := Record(src, g, key);
    if !Late(src, g.clock) && ObservedState(Classify(src, g, key)) {
      RecordShown(src, g, key);
      PublishableIs(src, key);
      hide Classify;
      Sums.Add(Sizes(src), g.products.Keys, key);
      assert h.products.Keys == g.products.Keys + {key};
    }
  }

  lemma {:induction false} PublishableIs(src: Source, key: Key)
    requires Publishable(src, key)
    ensures key in Shown(src) && key in Sizes(src)
  {
    hide Shown, Sizes, DistinctPorts;
  }

  lemma {:induction false} ReadMeasured(src: Source, g: Walked, key: Key)
    requires Measured(src, g) && Orderly(g)
    ensures Measured(src, Read(src, g, key).0)
  {
    hide DistinctPorts, Record, Shown, Sizes;
    if key !in g.nodes && !Late(src, g.clock) && |g.nodes| < MAX_TRACE_PRODUCTS {
      MeasuredSame(src, g, Tick(g));
      RecordMeasured(src, Tick(g), key);
    }
  }

  lemma {:induction false} MeasuredSame(src: Source, g: Walked, h: Walked)
    requires Measured(src, g) && h.products == g.products && h.retained == g.retained
    requires h.nodes == g.nodes && (h.complete ==> g.complete)
    ensures Measured(src, h)
  {
    hide Shown, Sizes, Publishable;
  }

  lemma {:induction false} VisitMeasured(src: Source, g: Walked, p: Product, depth: nat)
    requires Measured(src, g) && Orderly(g)
    ensures Measured(src, Visit(src, g, p, depth).0)
    decreases Remaining(depth), 2, 0
  {
    hide Measured, VisitInputs;
    MeasuredSame(src, g, Incomplete(Tick(g), Timeout));
    MeasuredSame(src, g, Incomplete(Tick(g), Cycle));
    MeasuredSame(src, g, Incomplete(Tick(g), DepthLimit));
    MeasuredSame(src, g, Tick(g));
    if !Late(src, g.clock) && p.key !in g.visiting && depth < MAX_TRACE_DEPTH && p.key !in g.visited {
      var open := Tick(g).(visiting := g.visiting + {p.key});
      MeasuredSame(src, g, open);
      VisitInputsMeasured(src, open, p, depth, SortedInputs(p));
      var done := VisitInputs(src, open, p, depth, SortedInputs(p));
      MeasuredSame(src, done, done.(visiting := done.visiting - {p.key}, visited := done.visited + {p.key}));
    }
  }

  lemma {:induction false} VisitInputsMeasured(src: Source, g: Walked, p: Product, depth: nat, inputs: seq<Input>)
    requires depth < MAX_TRACE_DEPTH && Measured(src, g) && Orderly(g) && p.key in g.visiting
    ensures Measured(src, VisitInputs(src, g, p, depth, inputs))
    decreases Remaining(depth), 1, |inputs|
  {
    hide Measured, Inspect, Kept, Grows;
    MeasuredSame(src, g, Incomplete(g, EdgeLimit));
    MeasuredSame(src, g, Incomplete(Tick(g), Timeout));
    if inputs != [] && |g.edges| < MAX_TRACE_EDGES && !Late(src, g.clock) {
      MeasuredSame(src, g, Tick(g));
      InspectMeasured(src, Tick(g), p, depth, inputs[0]);
      InspectKeeps(src, Tick(g), p, depth, inputs[0]);
      var next := Inspect(src, Tick(g), p, depth, inputs[0]);
      VisitingKept(src, Tick(g), next, g.visiting - {p.key});
      OrderlyKept(src, Tick(g), next, g.visiting - {p.key});
      VisitInputsMeasured(src, next, p, depth, inputs[1..]);
    }
  }

  lemma {:induction false} InspectMeasured(src: Source, g: Walked, p: Product, depth: nat, input: Input)
    requires depth < MAX_TRACE_DEPTH && Measured(src, g) && Orderly(g)
    ensures Measured(src, Inspect(src, g, p, depth, input))
    decreases Remaining(depth), 0, 0
  {
    hide Measured, Visit, Read, Kept, Grows, Target;
    var edge := NewEdge(p, depth, input);
    var emitted := g.(edges := g.edges + [edge]);
    var h := Inspect(src, g, p, depth, input);
    MeasuredSame(src, g, emitted);
    if edge.to.ns != p.key.ns || depth + 1 >= MAX_TRACE_DEPTH {
      MeasuredSame(src, emitted, h);
    } else {
      ReadMeasured(src, emitted, edge.to);
      ReadOrderly(src, emitted, edge.to);
      var (found, state) := Read(src, emitted, edge.to);
      if edge.to !in found.products || Evaluated(src.evaluate(input, found.products[edge.to])) == NotEvaluated {
        MeasuredSame(src, found, h);
      } else {
        VisitMeasured(src, found, found.products[edge.to], depth + 1);
        MeasuredSame(src, Visit(src, found, found.products[edge.to], depth + 1).0, h);
      }
    }
  }

  // ---------------------------------------------------------------- emission

  /** Some edge shows this input of this consumer. */
  ghost predicate Shows(edges: seq<Edge>, k: Key, input: Input)
  {
    exists e :: e in edges && e.from == k && e.input == input.name && e.to == Target(k, input)
  }

  ghost predicate CoversInputs(edges: seq<Edge>, k: Key, inputs: seq<Input>)
  {
    forall i {:trigger inputs[i]} :: 0 <= i < |inputs| ==> Shows(edges, k, inputs[i])
  }

  /** Every product finished since g has emitted all its inputs. */
  ghost predicate Covered(g: Walked, h: Walked)
  {
    forall k {:trigger k in h.visited} :: k in h.visited && k !in g.visited ==>
      k in h.products && CoversInputs(h.edges, k, h.products[k].inputs)
  }

  /** As long as nothing is missing, the edges are counted, and the products finished since g are covered. */
  ghost predicate Accounted(src: Source, g: Walked, h: Walked, own: nat)
  {
    h.complete ==>
      && Covered(g, h)
      && h.visited <= Weights(Shown(src)).Keys
      && |h.edges| == |g.edges| + own + Sums.Total(Weights(Shown(src)), h.visited - g.visited)
  }

  lemma {:induction false} ShowsGrow(a: seq<Edge>, b: seq<Edge>, k: Key, inputs: seq<Input>)
    requires CoversInputs(a, k, inputs)
    requires forall e {:trigger e in a} :: e in a ==>
               exists f :: f in b && f.from == e.from && f.to == e.to && f.input == e.input
    ensures CoversInputs(b, k, inputs)
  {
    forall i | 0 <= i < |inputs|
      ensures Shows(b, k, inputs[i])
    {
      assert Shows(a, k, inputs[i]);
      var e :| e in a && e.from == k && e.input == inputs[i].name && e.to == Target(k, inputs[i]);
      var f :| f in b && f.from == e.from && f.to == e.to && f.input == e.input;
    }
  }

  /** Every edge of a, up to its state, is an edge of b. */
  ghost predicate Retains(a: seq<Edge>, b: seq<Edge>)
  {
    forall e {:trigger e in a} :: e in a ==>
      exists f :: f in b && f.from == e.from && f.to == e.to && f.input == e.input
  }

  lemma {:induction false} PrefixRetains(a: seq<Edge>, b: seq<Edge>)
    requires Prefix(a, b)
    ensures Retains(a, b)
  {
    forall e | e in a
      ensures exists f :: f in b && f.from == e.from && f.to == e.to && f.input == e.input
    {
      var i :| 0 <= i < |a| && a[i] == e;
      assert b[..|a|][i] == b[i];
    }
  }

  lemma {:induction false} RewriteRetains(a: seq<Edge>, i: nat, e: Edge)
    requires i < |a| && e.from == a[i].from && e.to == a[i].to && e.input == a[i].input
    ensures Retains(a, a[i := e])
  {
    forall f | f in a
      ensures exists x :: x in a[i := e] && x.from == f.from && x.to == f.to && x.input == f.input
    {
      var j :| 0 <= j < |a| && a[j] == f;
      assert a[i := e][j] in a[i := e];
    }
  }

  /** Two consecutive parts of the walk. */
  lemma {:induction false} AccountJoins(src: Source, g: Walked, m: Walked, h: Walked, a: nat, b: nat)
    requires Accounted(src, g, m, a) && Accounted(src, m, h, b) && Grows(src, m, h) && g.visited <= m.visited
    ensures Accounted(src, g, h, a + b)
  {
    if h.complete {
      PrefixRetains(m.edges, h.edges);
      hide Retains, SubNodes, Prefix, Shown, Weights;
      forall k | k in h.visited && k !in g.visited
        ensures k in h.products && CoversInputs(h.edges, k, h.products[k].inputs)
      {
        if k in m.visited {
          assert h.products[k] == m.products[k];
          ShowsRetained(m.edges, h.edges, k, m.products[k].inputs);
        }
      }
      SumJoins(Weights(Shown(src)), g.visited, m.visited, h.visited);
    }
  }

  lemma {:induction false} ShowsRetained(a: seq<Edge>, b: seq<Edge>, k: Key, inputs: seq<Input>)
    requires CoversInputs(a, k, inputs) && Retains(a, b)
    ensures CoversInputs(b, k, inputs)
  {
    ShowsGrow(a, b, k, inputs);
  }

  lemma {:induction false} SumJoins(w: map<Key, nat>, a: set<Key>, b: set<Key>, c: set<Key>)
    requires a <= b <= c <= w.Keys
    ensures Sums.Total(w, c - a) == Sums.Total(w, b - a) + Sums.Total(w, c - b)
  {
    Sums.Disjoint(w, b - a, c - b);
    assert (b - a) + (c - b) == c - a;
  }

  lemma {:induction false} AccountSame(src: Source, g: Walked, h: Walked)
    requires h.edges == g.edges && h.visited == g.visited
    requires h.complete ==> g.visited <= Weights(Shown(src)).Keys
    ensures Accounted(src, g, h, 0)
  {
    assert h.visited - g.visited == {};
  }

  /** All finished products were shown. */
  ghost predicate VisitedShown(src: Source, g: Walked)
  {
    g.visited <= Weights(Shown(src)).Keys
  }

  /** What one activation guarantees while nothing is missing. */
  ghost predicate VisitAccount(src: Source, g: Walked, h: Walked, state: State, key: Key, depth: nat)
  {
    && Accounted(src, g, h, 0) && VisitedShown(src, h)
    && (h.complete ==> state == Resolved && key in h.visited && depth + Height(h, key) < MAX_TRACE_DEPTH)
  }

  /** What part of the loop guarantees: own edges, their inputs, and the height bound. */
  ghost predicate LoopAccount(src: Source, g: Walked, h: Walked, key: Key, depth: nat, inputs: seq<Input>)
  {
    && Accounted(src, g, h, |inputs|) && VisitedShown(src, h)
    && (h.complete ==> CoversInputs(h.edges, key, inputs))
    && (h.complete && depth + Height(g, key) < MAX_TRACE_DEPTH ==> depth + Height(h, key) < MAX_TRACE_DEPTH)
  }

  lemma {:induction false} VisitAccounted(src: Source, g: Walked, p: Product, depth: nat)
    requires Measured(src, g) && Orderly(g) && VisitedShown(src, g)
    requires p.key in g.products && g.products[p.key] == p
    requires g.heights.Keys <= g.visited + g.visiting
    ensures var (h, state) := Visit(src, g, p, depth);
            VisitAccount(src, g, h, state, p.key, depth) && h.heights.Keys <= h.visited + h.visiting
    decreases Remaining(depth), 2, 0
  {
    hide Measured, VisitInputs, VisitedShown, Accounted;
    VisitedShownSame(src, g);
    StoppedAccount(src, g, Timeout);
    StoppedAccount(src, g, Cycle);
    StoppedAccount(src, g, DepthLimit);
    AccountTick(src, g, p.key, depth);
    if !Late(src, g.clock) && p.key !in g.visiting && depth < MAX_TRACE_DEPTH && p.key !in g.visited {
      var open := Tick(g).(visiting := g.visiting + {p.key});
      MeasuredSame(src, g, open);
      VisitInputsAccounted(src, open, p, depth, SortedInputs(p));
      VisitInputsKeeps(src, open, p, depth, SortedInputs(p));
      var done := VisitInputs(src, open, p, depth, SortedInputs(p));
      OrderlyKept(src, open, done, open.visiting - {p.key});
      VisitingKept(src, open, done, open.visiting - {p.key});
      CloseAccount(src, g, open, done, p, depth);
    }
  }

  lemma {:induction false} VisitedShownSame(src: Source, g: Walked)
    requires VisitedShown(src, g)
    ensures forall h: Walked {:trigger VisitedShown(src, h)} :: h.visited == g.visited ==> VisitedShown(src, h)
  {
  }

  lemma {:induction false} StoppedAccount(src: Source, g: Walked, issue: State)
    requires VisitedShown(src, g)
    ensures Accounted(src, g, Incomplete(Tick(g), issue), 0) && !Incomplete(Tick(g), issue).complete
    ensures Accounted(src, g, Incomplete(g, issue), 0) && !Incomplete(g, issue).complete
  {
  }

  lemma {:induction false} AccountTick(src: Source, g: Walked, key: Key, depth: nat)
    requires VisitedShown(src, g)
    ensures Accounted(src, g, Tick(g), 0)
    ensures Height(Tick(g), key) == Height(g, key)
  {
    AccountSame(src, g, Tick(g));
  }

  lemma {:induction false} KeptParts(src: Source, g: Walked, h: Walked, open: set<Key>)
    requires Kept(src, g, h, open)
    ensures Grows(src, g, h) && HeightsKept(g, h, open) && h.visiting == g.visiting && g.visited <= h.visited
    ensures forall k {:trigger h.products[k]} :: k in g.products ==> k in h.products && h.products[k] == g.products[k]
  {
  }

  lemma {:induction false} WeightOf(src: Source, g: Walked, k: Key)
    requires Measured(src, g) && k in g.products
    ensures k in Weights(Shown(src)) && Weights(Shown(src))[k] == |g.products[k].inputs|
  {
    hide DistinctPorts;
  }

  lemma {:induction false} CloseAccount(src: Source, g: Walked, open: Walked, done: Walked, p: Product, depth: nat)
    requires Measured(src, g) && VisitedShown(src, g) && p.key in g.products && g.products[p.key] == p
    requires p.key !in g.visiting && p.key !in g.visited && depth < MAX_TRACE_DEPTH
    requires open == Tick(g).(visiting := g.visiting + {p.key}) && g.heights.Keys <= g.visited + g.visiting
    requires LoopAccount(src, open, done, p.key, depth, SortedInputs(p))
    requires Kept(src, open, done, open.visiting - {p.key}) && done.heights.Keys <= done.visited + done.visiting
    requires p.key !in done.visited
    ensures var h := done.(visiting := done.visiting - {p.key}, visited := done.visited + {p.key});
            VisitAccount(src, g, h, Resolved, p.key, depth) && h.heights.Keys <= h.visited + h.visiting
  {
    hide Kept, Measured, SortedInputs, Accounted, VisitedShown;
    var h := done.(visiting := done.visiting - {p.key}, visited := done.visited + {p.key});
    KeptParts(src, open, done, open.visiting - {p.key});
    hide Grows, HeightsKept;
    WeightOf(src, g, p.key);
    assert Height(h, p.key) == Height(done, p.key) && Height(open, p.key) == 0;
    CloseShown(src, g, done, h, p.key);
    CloseEdges(src, g, open, done, h, p);
  }

  lemma {:induction false} CloseShown(src: Source, g: Walked, done: Walked, h: Walked, key: Key)
    requires VisitedShown(src, done) && key in Weights(Shown(src)) && h.visited == done.visited + {key}
    ensures VisitedShown(src, h)
  {
    hide Shown, Weights;
  }

  lemma {:induction false} CloseEdges(src: Source, g: Walked, open: Walked, done: Walked, h: Walked, p: Product)
    requires Accounted(src, open, done, |SortedInputs(p)|) && open.visited == g.visited && open.edges == g.edges
    requires done.complete ==> CoversInputs(done.edges, p.key, SortedInputs(p))
    requires VisitedShown(src, h) && g.visited <= done.visited && p.key !in done.visited
    requires p.key in done.products && done.products[p.key] == p
    requires p.key in Weights(Shown(src)) && Weights(Shown(src))[p.key] == |p.inputs|
    requires h == done.(visiting := done.visiting - {p.key}, visited := done.visited + {p.key})
    ensures Accounted(src, g, h, 0)
  {
    var w := Weights(Shown(src));
    hide Shown, Weights, SortedInputs;
    SortedLength(p);
    if h.complete {
      SortedCovers(done.edges, p);
      hide CoversInputs;
      Sums.Add(w, done.visited - g.visited, p.key);
      assert h.visited - g.visited == (done.visited - g.visited) + {p.key};
      assert Covered(g, h);
    }
  }

  lemma {:induction false} SortedLength(p: Product)
    ensures |SortedInputs(p)| == |p.inputs|
  {
    assert |multiset(SortedInputs(p))| == |SortedInputs(p)| && |multiset(p.inputs)| == |p.inputs|;
  }

  lemma {:induction false} SortedCovers(edges: seq<Edge>, p: Product)
    requires CoversInputs(edges, p.key, SortedInputs(p))
    ensures CoversInputs(edges, p.key, p.inputs)
  {
    hide Shows, Order.Sort;
    forall i | 0 <= i < |p.inputs|
      ensures Shows(edges, p.key, p.inputs[i])
    {
      Order.PermutationMember(SortedInputs(p), p.inputs, p.inputs[i]);
      var j :| 0 <= j < |SortedInputs(p)| && SortedInputs(p)[j] == p.inputs[i];
      assert Shows(edges, p.key, SortedInputs(p)[j]);
    }
  }

  lemma {:induction false} VisitInputsAccounted(src: Source, g: Walked, p: Product, depth: nat, inputs: seq<Input>)
    requires depth < MAX_TRACE_DEPTH && Measured(src, g) && Orderly(g) && VisitedShown(src, g)
    requires p.key in g.visiting && g.heights.Keys <= g.visited + g.visiting
    ensures var h := VisitInputs(src, g, p, depth, inputs);
            LoopAccount(src, g, h, p.key, depth, inputs) && h.heights.Keys <= h.visited + h.visiting
    decreases Remaining(depth), 1, |inputs|
  {
    hide *;
    if inputs == [] {
      EmptyLoop(src, g, p, depth);
    } else if |g.edges| >= MAX_TRACE_EDGES || Late(src, g.clock) {
      StoppedLoop(src, g, p, depth, inputs);
    } else {
      TickFacts(src, g, p.key);
      InspectAccounted(src, Tick(g), p, depth, inputs[0]);
      InspectMeasured(src, Tick(g), p, depth, inputs[0]);
      InspectKeeps(src, Tick(g), p, depth, inputs[0]);
      var next := Inspect(src, Tick(g), p, depth, inputs[0]);
      VisitingKept(src, Tick(g), next, Tick(g).visiting - {p.key});
      OrderlyKept(src, Tick(g), next, Tick(g).visiting - {p.key});
      LoopShown(src, Tick(g), next, p.key, depth, [inputs[0]]);
      VisitInputsAccounted(src, next, p, depth, inputs[1..]);
      VisitInputsKeeps(src, next, p, depth, inputs[1..]);
      var h := VisitInputs(src, next, p, depth, inputs[1..]);
      OrderlyKept(src, next, h, next.visiting - {p.key});
      LoopJoins(src, g, next, h, p.key, depth, inputs);
      LoopUnfolds(src, g, p, depth, inputs);
    }
  }

  lemma {:induction false} LoopUnfolds(src: Source, g: Walked, p: Product, depth: nat, inputs: seq<Input>)
    requires depth < MAX_TRACE_DEPTH && inputs != [] && |g.edges| < MAX_TRACE_EDGES && !Late(src, g.clock)
    ensures VisitInputs(src, g, p, depth, inputs) ==
            VisitInputs(src, Inspect(src, Tick(g), p, depth, inputs[0]), p, depth, inputs[1..])
  {
    hide Inspect;
  }

  lemma {:induction false} EmptyLoop(src: Source, g: Walked, p: Product, depth: nat)
    requires depth < MAX_TRACE_DEPTH && VisitedShown(src, g)
    ensures VisitInputs(src, g, p, depth, []) == g && LoopAccount(src, g, g, p.key, depth, [])
  {
    AccountSame(src, g, g);
    hide Accounted;
  }

  lemma {:induction false} StoppedLoop(src: Source, g: Walked, p: Product, depth: nat, inputs: seq<Input>)
    requires depth < MAX_TRACE_DEPTH && VisitedShown(src, g) && inputs != []
    requires |g.edges| >= MAX_TRACE_EDGES || Late(src, g.clock)
    requires g.heights.Keys <= g.visited + g.visiting
    ensures var h := VisitInputs(src, g, p, depth, inputs);
            LoopAccount(src, g, h, p.key, depth, inputs) && h.heights.Keys <= h.visited + h.visiting
  {
  }

  lemma {:induction false} TickFacts(src: Source, g: Walked, key: Key)
    requires Measured(src, g) && Orderly(g) && VisitedShown(src, g)
    ensures var t := Tick(g);
            Measured(src, t) && Orderly(t) && VisitedShown(src, t) && t.visiting == g.visiting && t.edges == g.edges
            && t.heights == g.heights && t.visited == g.visited
  {
    MeasuredSame(src, g, Tick(g));
  }

  lemma {:induction false} LoopShown(src: Source, g: Walked, h: Walked, key: Key, depth: nat, inputs: seq<Input>)
    requires LoopAccount(src, g, h, key, depth, inputs)
    ensures VisitedShown(src, h)
  {
  }

  lemma {:induction false} LoopJoins(src: Source, g: Walked, m: Walked, h: Walked, key: Key, depth: nat,
                                     inputs: seq<Input>)
    requires inputs != [] && Grows(src, Tick(g), m) && Grows(src, m, h)
    requires LoopAccount(src, Tick(g), m, key, depth, [inputs[0]]) && LoopAccount(src, m, h, key, depth, inputs[1..])
    ensures LoopAccount(src, g, h, key, depth, inputs)
  {
    AccountFromTick(src, g, m, 1);
    assert g.visited <= m.visited;
    AccountJoins(src, g, m, h, 1, |inputs| - 1);
    assert Height(Tick(g), key) == Height(g, key);
    assert h.complete ==> m.complete;
    if h.complete {
      PrefixRetains(m.edges, h.edges);
      ShowsRetained(m.edges, h.edges, key, [inputs[0]]);
      CoversCons(h.edges, key, inputs);
    }
    hide Grows, Accounted, CoversInputs;
  }

  lemma {:induction false} CoversCons(edges: seq<Edge>, key: Key, inputs: seq<Input>)
    requires inputs != [] && CoversInputs(edges, key, [inputs[0]]) && CoversInputs(edges, key, inputs[1..])
    ensures CoversInputs(edges, key, inputs)
  {
    hide Shows;
    forall i | 0 <= i < |inputs|
      ensures Shows(edges, key, inputs[i])
    {
      if i == 0 {
        assert Shows(edges, key, [inputs[0]][0]);
      } else {
        assert Shows(edges, key, inputs[1..][i - 1]);
      }
    }
  }

  lemma {:induction false} AccountFromTick(src: Source, g: Walked, m: Walked, own: nat)
    requires Accounted(src, Tick(g), m, own)
    ensures Accounted(src, g, m, own)
  {
    hide Shown, Weights;
  }

  lemma {:induction false} InspectAccounted(src: Source, g: Walked, p: Product, depth: nat, input: Input)
    requires depth < MAX_TRACE_DEPTH && Measured(src, g) && Orderly(g) && VisitedShown(src, g)
    requires p.key in g.visiting && g.heights.Keys <= g.visited + g.visiting
    ensures var h := Inspect(src, g, p, depth, input);
            LoopAccount(src, g, h, p.key, depth, [input]) && h.heights.Keys <= h.visited + h.visiting
    decreases Remaining(depth), 0, 0
  {
    hide Measured, Visit, Read, Kept, Grows, HeightsKept, Target, VisitedShown, Accounted, Orderly, LoopAccount,
         VisitAccount;
    var edge := NewEdge(p, depth, input);
    var emitted := g.(edges := g.edges + [edge]);
    var h := Inspect(src, g, p, depth, input);
    VisitedShownSame(src, g);
    if edge.to.ns != p.key.ns || depth + 1 >= MAX_TRACE_DEPTH {
      IncompleteLoop(src, g, h, p.key, depth, [input]);
    } else {
      MeasuredSame(src, g, emitted);
      OrderlySame(g, emitted);
      ReadMeasured(src, emitted, edge.to);
      ReadOrderly(src, emitted, edge.to);
      OrderlyNoted(emitted);
      ReadGrows(src, emitted, edge.to);
      ReadGap(src, emitted, edge.to);
      var (found, state) := Read(src, emitted, edge.to);
      FoundVisiting(src, emitted, found);
      if edge.to !in found.products || Evaluated(src.evaluate(input, found.products[edge.to])) == NotEvaluated {
        IncompleteLoop(src, g, h, p.key, depth, [input]);
      } else {
        MeasuredKey(src, found, edge.to);
        VisitAccounted(src, found, found.products[edge.to], depth + 1);
        VisitKeeps(src, found, found.products[edge.to], depth + 1);
        var (below, reached) := Visit(src, found, found.products[edge.to], depth + 1);
        OrderlyKept(src, found, below, found.visiting);
        KeptParts(src, found, below, found.visiting);
        ReachedAccount(src, g, found, below, h, p, depth, input, reached);
      }
    }
  }

  lemma {:induction false} OrderlySame(g: Walked, h: Walked)
    requires Orderly(g) && h == g.(edges := h.edges)
    ensures Orderly(h)
  {
  }

  lemma {:induction false} OrderlyNoted(g: Walked)
    requires Orderly(g)
    ensures g.products.Keys <= g.nodes.Keys
  {
  }

  lemma {:induction false} FoundVisiting(src: Source, g: Walked, found: Walked)
    requires Grows(src, g, found) && ReadOnly(g, found)
    ensures found.visiting == g.visiting && found.visited == g.visited && found.edges == g.edges &&
            found.heights == g.heights
    ensures found.complete ==> g.complete
  {
  }

  /** A read without a product leaves the walk incomplete, if it was not already. */
  lemma {:induction false} ReadGap(src: Source, g: Walked, key: Key)
    requires Measured(src, g) && Orderly(g)
    ensures key !in Read(src, g, key).0.products ==> !Read(src, g, key).0.complete
  {
    hide Classify, Shown, Sizes, Publishable;
  }

  lemma {:induction false} MeasuredKey(src: Source, g: Walked, key: Key)
    requires Measured(src, g) && key in g.products
    ensures g.products[key].key == key
  {
    hide DistinctPorts;
  }

  lemma {:induction false} IncompleteLoop(src: Source, g: Walked, h: Walked, key: Key, depth: nat, inputs: seq<Input>)
    requires !h.complete && h.visited == g.visited && VisitedShown(src, g)
    ensures LoopAccount(src, g, h, key, depth, inputs)
  {
  }

  lemma {:induction false} ReachedAccount(src: Source, g: Walked, found: Walked, below: Walked, h: Walked, p: Product,
                                          depth: nat, input: Input,
                       reached: State)
    requires found.edges == g.edges + [NewEdge(p, depth, input)] && found.visited == g.visited &&
             found.heights == g.heights
    requires VisitAccount(src, found, below, reached, Target(p.key, input), depth + 1) && Grows(src, found, below)
    requires HeightsKept(found, below, found.visiting) && p.key in found.visiting
    requires exists contracted :: h == Rewrite(Raise(below, p.key, Target(p.key, input)), |g.edges|,
                                               NewEdge(p, depth, input).(state := reached, compatibility := contracted))
    ensures LoopAccount(src, g, h, p.key, depth, [input])
  {
    var key := Target(p.key, input);
    var edge := NewEdge(p, depth, input);
    assert |g.edges| < |below.edges| && below.edges[|g.edges|] == below.edges[..|g.edges| + 1][|g.edges|] == edge;
    assert Height(h, p.key) == Max(Height(below, p.key), 1 + Height(below, key));
    assert Height(below, p.key) == Height(found, p.key) == Height(g, p.key);
    hide Grows, HeightsKept, Raise, Height, Target;
    RewriteRetains(below.edges, |g.edges|, h.edges[|g.edges|]);
    if h.complete {
      forall k | k in h.visited && k !in g.visited
        ensures k in h.products && CoversInputs(h.edges, k, h.products[k].inputs)
      {
        ShowsRetained(below.edges, h.edges, k, below.products[k].inputs);
      }
      assert h.edges[|g.edges|] in h.edges;
      assert Shows(h.edges, p.key, input);
    }
  }
}
