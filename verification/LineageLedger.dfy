/** Each product emits its inputs once, at one depth, and within the edge budget. */
module LineageLedger {
  import opened Products
  import opened Compatibility
  import opened Lineage
  import opened LineageKeeps
  import Order

  /** Edges from position n on: one consumer has one depth, and names each input once. */
  ghost predicate Consistent(edges: seq<Edge>, n: nat)
  {
    forall i, j {:trigger edges[i], edges[j]} :: n <= i < j < |edges| && edges[i].from == edges[j].from ==>
      edges[i].depth == edges[j].depth && edges[i].input != edges[j].input
  }

  /** Edges from position n on come from the products in `from`. */
  ghost predicate FromOnly(edges: seq<Edge>, n: nat, from: set<Key>)
  {
    forall j {:trigger edges[j]} :: n <= j < |edges| ==> edges[j].from in from
  }

  /** ... or from the open product p, at this depth, for one of these inputs. */
  ghost predicate FromOrOpen(edges: seq<Edge>, n: nat, from: set<Key>, p: Key, depth: nat, names: seq<string>)
  {
    forall j {:trigger edges[j]} :: n <= j < |edges| ==>
      edges[j].from in from || (edges[j].from == p && edges[j].depth == depth + 1 && edges[j].input in names)
  }

  ghost predicate Listed(g: Walked, h: Walked)
  {
    Consistent(h.edges, |g.edges|) && FromOnly(h.edges, |g.edges|, h.visited - g.visited) &&
    |h.edges| <= MAX_TRACE_EDGES
  }

  ghost predicate ListedInputs(g: Walked, h: Walked, p: Key, depth: nat, names: seq<string>)
  {
    && Consistent(h.edges, |g.edges|)
    && FromOrOpen(h.edges, |g.edges|, h.visited - g.visited, p, depth, names)
    && |h.edges| <= MAX_TRACE_EDGES
  }

  lemma {:induction false} VisitListed(src: Source, g: Walked, p: Product, depth: nat)
    requires Orderly(g) && DistinctNames(InputNames(p.inputs)) && ProductsDistinct(g) && |g.edges| <= MAX_TRACE_EDGES
    ensures var h := Visit(src, g, p, depth).0;
            Listed(g, h) && ProductsDistinct(h)
    decreases Remaining(depth), 2, 0
  {
    hide VisitInputs, SortedInputs, ProductsDistinct;
    ProductsSame(g);
    if !Late(src, g.clock) && p.key !in g.visiting && depth < MAX_TRACE_DEPTH && p.key !in g.visited {
      var open := Tick(g).(visiting := g.visiting + {p.key});
      SortedDistinct(p);
      VisitInputsListed(src, open, p, depth, SortedInputs(p));
      VisitInputsKeeps(src, open, p, depth, SortedInputs(p));
      var done := VisitInputs(src, open, p, depth, SortedInputs(p));
      CloseListed(src, g, open, done, p.key, depth, InputNames(SortedInputs(p)));
      ProductsSame(done);
    }
  }

  /** Every product read has distinct port names. */
  ghost predicate ProductsDistinct(g: Walked)
  {
    forall k {:trigger g.products[k]} :: k in g.products ==> DistinctNames(InputNames(g.products[k].inputs))
  }

  lemma {:induction false} ProductsSame(g: Walked)
    requires ProductsDistinct(g)
    ensures forall h: Walked {:trigger ProductsDistinct(h)} :: h.products == g.products ==> ProductsDistinct(h)
  {
  }

  lemma {:induction false} ReadDistinct(src: Source, g: Walked, key: Key)
    requires ProductsDistinct(g)
    ensures ProductsDistinct(Read(src, g, key).0)
  {
    RecordDistinct(src, Tick(g), key);
    hide InputNames, Record;
  }

  lemma {:induction false} RecordDistinct(src: Source, g: Walked, key: Key)
    requires ProductsDistinct(g)
    ensures ProductsDistinct(Record(src, g, key))
  {
    hide InputNames;
  }

  lemma {:induction false} SortedDistinct(p: Product)
    requires DistinctNames(InputNames(p.inputs))
    ensures DistinctNames(InputNames(SortedInputs(p)))
  {
    var name := (x: Input) => x.name;
    var sorted := SortedInputs(p);
    assert forall i :: 0 <= i < |p.inputs| ==> name(p.inputs[i]) == InputNames(p.inputs)[i];
    Order.PermutationDistinct(p.inputs, sorted, name);
    forall i, j | 0 <= i < j < |sorted|
      ensures InputNames(sorted)[i] != InputNames(sorted)[j]
    {
      assert name(sorted[i]) != name(sorted[j]);
    }
  }

  lemma {:induction false} CloseListed(src: Source, g: Walked, open: Walked, done: Walked, key: Key, depth: nat,
                                       names: seq<string>)
    requires key !in g.visiting && key !in g.visited && open == Tick(g).(visiting := g.visiting + {key})
    requires ListedInputs(open, done, key, depth, names) && Kept(src, open, done, open.visiting - {key})
    ensures Listed(g, done.(visiting := done.visiting - {key}, visited := done.visited + {key}))
  {
    hide HeightsKept, Consistent;
  }

  lemma {:induction false} VisitInputsListed(src: Source, g: Walked, p: Product, depth: nat, inputs: seq<Input>)
    requires depth < MAX_TRACE_DEPTH && Orderly(g) && p.key in g.visiting
    requires DistinctNames(InputNames(inputs)) && ProductsDistinct(g) && |g.edges| <= MAX_TRACE_EDGES
    ensures var h := VisitInputs(src, g, p, depth, inputs);
            ListedInputs(g, h, p.key, depth, InputNames(inputs)) && ProductsDistinct(h)
    decreases Remaining(depth), 1, |inputs|
  {
    hide Inspect, ProductsDistinct, Kept;
    ProductsSame(g);
    if inputs != [] && |g.edges| < MAX_TRACE_EDGES && !Late(src, g.clock) {
      InspectListed(src, Tick(g), p, depth, inputs[0]);
      InspectKeeps(src, Tick(g), p, depth, inputs[0]);
      var next := Inspect(src, Tick(g), p, depth, inputs[0]);
      VisitingKept(src, Tick(g), next, g.visiting - {p.key});
      OrderlyKept(src, Tick(g), next, g.visiting - {p.key});
      assert InputNames(inputs[1..]) == InputNames(inputs)[1..];
      VisitInputsListed(src, next, p, depth, inputs[1..]);
      VisitInputsKeeps(src, next, p, depth, inputs[1..]);
      var h := VisitInputs(src, next, p, depth, inputs[1..]);
      VisitingKept(src, next, h, next.visiting - {p.key});
      OrderlyKept(src, next, h, next.visiting - {p.key});
      hide VisitInputs, Grows, ListedInputs;
      JoinListed(src, Tick(g), next, h, p.key, depth, InputNames(inputs));
    }
  }

  lemma {:induction false} OrderlyKept(src: Source, g: Walked, h: Walked, open: set<Key>)
    requires Kept(src, g, h, open)
    ensures Orderly(h) && Grows(src, g, h)
  {
  }

  lemma {:induction false} JoinListed(src: Source, g: Walked, m: Walked, h: Walked, p: Key, depth: nat,
                                      names: seq<string>)
    requires names != [] && DistinctNames(names)
    requires ListedInputs(g, m, p, depth, [names[0]]) && ListedInputs(m, h, p, depth, names[1..])
    requires Grows(src, g, m) && Grows(src, m, h) && Orderly(m) && Orderly(h) && p in h.visiting && p in m.visiting
    ensures ListedInputs(g, h, p, depth, names)
  {
    hide SubNodes, SubProducts, Late, InputNames;
    assert forall j :: |g.edges| <= j < |m.edges| ==> h.edges[j] == h.edges[..|m.edges|][j] == m.edges[j];
    forall i, j | |g.edges| <= i < j < |h.edges| && h.edges[i].from == h.edges[j].from
      ensures h.edges[i].depth == h.edges[j].depth && h.edges[i].input != h.edges[j].input
    {
      if j < |m.edges| {
        assert m.edges[i].from == m.edges[j].from;
      } else if i < |m.edges| {
        assert h.edges[i] == m.edges[i];
        assert h.edges[j].from == p;
        var n :| 0 <= n < |names[1..]| && names[1..][n] == h.edges[j].input;
        assert names[0] != names[n + 1];
      }
    }
  }

  lemma {:induction false} InspectListed(src: Source, g: Walked, p: Product, depth: nat, input: Input)
    requires depth < MAX_TRACE_DEPTH && Orderly(g) && p.key in g.visiting
    requires ProductsDistinct(g) && |g.edges| < MAX_TRACE_EDGES
    ensures var h := Inspect(src, g, p, depth, input);
            ListedInputs(g, h, p.key, depth, [input.name]) && ProductsDistinct(h)
    decreases Remaining(depth), 0, 0
  {
    hide Visit, Read, ProductsDistinct, Kept, Grows, HeightsKept, Target, ListedInputs, Listed;
    var edge := NewEdge(p, depth, input);
    var emitted := g.(edges := g.edges + [edge]);
    var h := Inspect(src, g, p, depth, input);
    ProductsSame(g);
    if edge.to.ns != p.key.ns || depth + 1 >= MAX_TRACE_DEPTH {
      OneListed(g, h, p, depth, input);
    } else {
      ReadGrows(src, emitted, edge.to);
      ReadOrderly(src, emitted, edge.to);
      ReadDistinct(src, emitted, edge.to);
      var (found, state) := Read(src, emitted, edge.to);
      assert found.edges == emitted.edges && found.visited == g.visited;
      GrowsVisiting(src, emitted, found);
      ProductsSame(found);
      if edge.to !in found.products || Evaluated(src.evaluate(input, found.products[edge.to])) == NotEvaluated {
        OneListed(g, h, p, depth, input);
      } else {
        DistinctProduct(found, edge.to);
        VisitListed(src, found, found.products[edge.to], depth + 1);
        VisitKeeps(src, found, found.products[edge.to], depth + 1);
        var (below, reached) := Visit(src, found, found.products[edge.to], depth + 1);
        OrderlyKept(src, found, below, found.visiting);
        VisitingKept(src, found, below, found.visiting);
        ProductsSame(below);
        EdgesGrow(src, found, below);
        MoreListed(g, found, below, h, p, depth, input);
      }
    }
  }

  lemma {:induction false} EdgesGrow(src: Source, g: Walked, h: Walked)
    requires Grows(src, g, h)
    ensures |g.edges| <= |h.edges| && h.edges[..|g.edges|] == g.edges
  {
  }

  lemma {:induction false} GrowsVisiting(src: Source, g: Walked, h: Walked)
    requires Grows(src, g, h)
    ensures h.visiting == g.visiting && g.visited <= h.visited
  {
  }

  lemma {:induction false} DistinctProduct(g: Walked, key: Key)
    requires ProductsDistinct(g) && key in g.products
    ensures DistinctNames(InputNames(g.products[key].inputs))
  {
  }

  /** One more edge, in whatever final form. */
  lemma {:induction false} OneListed(g: Walked, h: Walked, p: Product, depth: nat, input: Input)
    requires |g.edges| < MAX_TRACE_EDGES && |h.edges| == |g.edges| + 1
    requires h.edges[|g.edges|].from == p.key && h.edges[|g.edges|].depth == depth + 1
    requires h.edges[|g.edges|].input == input.name
    ensures ListedInputs(g, h, p.key, depth, [input.name])
  {
  }

  /** One more edge of the open product, followed by the edges of products finished meanwhile. */
  lemma {:induction false} MoreListed(g: Walked, found: Walked, below: Walked, h: Walked, p: Product, depth: nat,
                                      input: Input)
    requires |found.edges| == |g.edges| + 1 && found.visited == g.visited
    requires Listed(found, below) && Orderly(below) && p.key in below.visiting
    requires |found.edges| <= |below.edges| == |h.edges| && h.visited == below.visited
    requires h.edges[|g.edges|].from == p.key && h.edges[|g.edges|].depth == depth + 1
    requires h.edges[|g.edges|].input == input.name
    requires forall j {:trigger h.edges[j]} :: |g.edges| < j < |h.edges| ==> h.edges[j] == below.edges[j]
    ensures ListedInputs(g, h, p.key, depth, [input.name])
  {
    forall i, j | |g.edges| <= i < j < |h.edges| && h.edges[i].from == h.edges[j].from
      ensures h.edges[i].depth == h.edges[j].depth && h.edges[i].input != h.edges[j].input
    {
      assert h.edges[j] == below.edges[j];
      assert below.edges[j].from in below.visited;
      assert i > |g.edges|;
      assert h.edges[i] == below.edges[i];
    }
  }
}
