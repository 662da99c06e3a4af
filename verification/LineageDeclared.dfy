/** Every edge of a lineage walk stands for a declared input, with the evaluator's exact verdict. */
module LineageDeclared {
  import opened Products
  import opened Compatibility
  import opened Digraph
  import opened Lineage
  import opened LineageKeeps
  import opened LineageLedger
  import opened LineageAccount
  import Order

  /** The edge repeats the input, and its verdict is the evaluator's on the product that was read. */
  ghost predicate Says(src: Source, m: map<Key, Product>, e: Edge, input: Input)
  {
    && e.input == input.name && e.to == Target(e.from, input)
    && e.output == input.ref.output && e.requirement == input.contract
    && (e.compatibility != NotEvaluated ==> e.to in m && e.compatibility == Evaluated(src.evaluate(input, m[e.to])))
  }

  ghost predicate Declared(src: Source, m: map<Key, Product>, e: Edge)
  {
    e.from in m && exists input :: input in m[e.from].inputs && Says(src, m, e, input)
  }

  ghost predicate AllDeclared(src: Source, n: nat, g: Walked)
  {
    forall j {:trigger g.edges[j]} :: n <= j < |g.edges| ==> Declared(src, g.products, g.edges[j])
  }

  lemma {:induction false} DeclaredLasts(src: Source, m: map<Key, Product>, h: map<Key, Product>, e: Edge)
    requires SubProducts(m, h) && Declared(src, m, e)
    ensures Declared(src, h, e)
  {
    var input :| input in m[e.from].inputs && Says(src, m, e, input);
    assert input in h[e.from].inputs && Says(src, h, e, input);
  }

  lemma {:induction false} AllDeclaredLasts(src: Source, n: nat, g: Walked, h: Walked)
    requires AllDeclared(src, n, g) && SubProducts(g.products, h.products) && Prefix(g.edges, h.edges)
    ensures forall j {:trigger h.edges[j]} :: n <= j < |g.edges| ==> Declared(src, h.products, h.edges[j])
  {
    hide Declared, SubProducts;
    forall j | n <= j < |g.edges|
      ensures Declared(src, h.products, h.edges[j])
    {
      assert h.edges[j] == h.edges[..|g.edges|][j] == g.edges[j];
      DeclaredLasts(src, g.products, h.products, g.edges[j]);
    }
  }

  lemma {:induction false} DeclaredJoins(src: Source, n: nat, g: Walked, h: Walked)
    requires AllDeclared(src, n, g) && AllDeclared(src, |g.edges|, h)
    requires SubProducts(g.products, h.products) && Prefix(g.edges, h.edges)
    ensures AllDeclared(src, n, h)
  {
    hide Declared, SubProducts;
    AllDeclaredLasts(src, n, g, h);
  }

  lemma {:induction false} VisitDeclares(src: Source, g: Walked, p: Product, depth: nat)
    requires Measured(src, g) && Orderly(g) && p.key in g.products && g.products[p.key] == p
    ensures AllDeclared(src, |g.edges|, Visit(src, g, p, depth).0)
    decreases Remaining(depth), 2, 0
  {
    hide Measured, VisitInputs, Declared;
    if !Late(src, g.clock) && p.key !in g.visiting && depth < MAX_TRACE_DEPTH && p.key !in g.visited {
      var open := Tick(g).(visiting := g.visiting + {p.key});
      MeasuredSame(src, g, open);
      SortedMembers(p);
      VisitInputsDeclares(src, open, p, depth, SortedInputs(p));
    }
  }

  lemma {:induction false} SortedMembers(p: Product)
    ensures forall x :: x in SortedInputs(p) ==> x in p.inputs
  {
    forall x | x in SortedInputs(p)
      ensures x in p.inputs
    {
      Order.PermutationMember(SortedInputs(p), p.inputs, x);
    }
  }

  lemma {:induction false} VisitInputsDeclares(src: Source, g: Walked, p: Product, depth: nat, inputs: seq<Input>)
    requires depth < MAX_TRACE_DEPTH && Measured(src, g) && Orderly(g)
    requires p.key in g.visiting && p.key in g.products && g.products[p.key] == p
    requires forall x :: x in inputs ==> x in p.inputs
    ensures AllDeclared(src, |g.edges|, VisitInputs(src, g, p, depth, inputs))
    decreases Remaining(depth), 1, |inputs|
  {
    hide Measured, Inspect, Kept, Declared, Late;
    if inputs != [] && |g.edges| < MAX_TRACE_EDGES && !Late(src, g.clock) {
      var next := Inspect(src, Tick(g), p, depth, inputs[0]);
      MeasuredSame(src, g, Tick(g));
      InspectDeclares(src, Tick(g), p, depth, inputs[0]);
      InspectMeasured(src, Tick(g), p, depth, inputs[0]);
      InspectKeeps(src, Tick(g), p, depth, inputs[0]);
      KeptParts(src, Tick(g), next, g.visiting - {p.key});
      OrderlyKept(src, Tick(g), next, g.visiting - {p.key});
      var rest := inputs[1..];
      assert forall x :: x in rest ==> x in inputs;
      VisitInputsDeclares(src, next, p, depth, rest);
      VisitInputsKeeps(src, next, p, depth, rest);
      var h := VisitInputs(src, next, p, depth, rest);
      GrownParts(src, next, h, next.visiting - {p.key});
      DeclaredJoins(src, |g.edges|, next, h);
    }
  }

  lemma {:induction false} GrownParts(src: Source, g: Walked, h: Walked, open: set<Key>)
    requires Kept(src, g, h, open)
    ensures SubProducts(g.products, h.products) && Prefix(g.edges, h.edges)
  {
    hide HeightsKept;
  }

  lemma {:induction false} InspectDeclares(src: Source, g: Walked, p: Product, depth: nat, input: Input)
    requires depth < MAX_TRACE_DEPTH && Measured(src, g) && Orderly(g)
    requires p.key in g.visiting && p.key in g.products && g.products[p.key] == p && input in p.inputs
    ensures AllDeclared(src, |g.edges|, Inspect(src, g, p, depth, input))
    decreases Remaining(depth), 0, 0
  {
    hide Measured, Visit, Read, Kept, Grows, HeightsKept, Target, Orderly, AllDeclared;
    var edge := NewEdge(p, depth, input);
    var emitted := g.(edges := g.edges + [edge]);
    var h := Inspect(src, g, p, depth, input);
    if edge.to.ns != p.key.ns {
      OneDeclared(src, g, h, p, depth, input, edge.(state := CrossNamespace));
    } else if depth + 1 >= MAX_TRACE_DEPTH {
      OneDeclared(src, g, h, p, depth, input, edge.(state := DepthLimit));
    } else {
      MeasuredSame(src, g, emitted);
      OrderlySame(g, emitted);
      OrderlyNoted(emitted);
      ReadMeasured(src, emitted, edge.to);
      ReadOrderly(src, emitted, edge.to);
      ReadGrows(src, emitted, edge.to);
      var (found, state) := Read(src, emitted, edge.to);
      FoundProducts(src, emitted, found, p);
      FoundVisiting(src, emitted, found);
      if edge.to !in found.products {
        OneDeclared(src, g, h, p, depth, input, edge.(state := state));
      } else if Evaluated(src.evaluate(input, found.products[edge.to])) == NotEvaluated {
        OneDeclared(src, g, h, p, depth, input, edge.(state := Unavailable));
      } else {
        var producer := found.products[edge.to];
        MeasuredKey(src, found, edge.to);
        VisitDeclares(src, found, producer, depth + 1);
        VisitKeeps(src, found, producer, depth + 1);
        var (below, reached) := Visit(src, found, producer, depth + 1);
        KeptParts(src, found, below, found.visiting);
        GrownParts(src, found, below, found.visiting);
        var contracted := Evaluated(src.evaluate(input, producer));
        FirstDeclared(src, g, below, h, p, depth, input, edge.(state := reached, compatibility := contracted));
      }
    }
  }

  lemma {:induction false} FoundProducts(src: Source, g: Walked, found: Walked, p: Product)
    requires Grows(src, g, found) && p.key in g.products && g.products[p.key] == p
    ensures p.key in found.products && found.products[p.key] == p
  {
  }

  lemma {:induction false} OneDeclared(src: Source, g: Walked, h: Walked, p: Product, depth: nat, input: Input,
                                       final: Edge)
    requires h.edges == g.edges + [final] && p.key in h.products && h.products[p.key] == p && input in p.inputs
    requires final == NewEdge(p, depth, input).(state := final.state)
    ensures AllDeclared(src, |g.edges|, h)
  {
    assert Says(src, h.products, final, input);
    assert Declared(src, h.products, final);
    hide Says;
  }

  lemma {:induction false} FirstDeclared(src: Source, g: Walked, below: Walked, h: Walked, p: Product, depth: nat,
                                         input: Input, final: Edge)
    requires AllDeclared(src, |g.edges| + 1, below) && |g.edges| < |below.edges|
    requires h.products == below.products && h.edges == below.edges[|g.edges| := final]
    requires p.key in h.products && h.products[p.key] == p && input in p.inputs
    requires final == NewEdge(p, depth, input).(state := final.state, compatibility := final.compatibility)
    requires final.to in h.products && final.compatibility == Evaluated(src.evaluate(input, h.products[final.to]))
    ensures AllDeclared(src, |g.edges|, h)
  {
    assert Says(src, h.products, final, input);
    assert Declared(src, h.products, final);
    hide Declared;
    forall j | |g.edges| <= j < |h.edges|
      ensures Declared(src, h.products, h.edges[j])
    {
      if j > |g.edges| {
        assert h.edges[j] == below.edges[j];
      }
    }
  }
}
