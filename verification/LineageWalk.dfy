/** The registry's walk object: maps, edges and budgets updated in place during the recursion. */
module LineageWalk {
  import opened Products
  import opened Compatibility
  import opened Lineage

  class Walk {
    const src: Source
    var products: map<Key, Product>
    var nodes: map<Key, Node>
    var visiting: set<Key>
    var visited: set<Key>
    var heights: map<Key, nat>
    var issues: set<State>
    var complete: bool
    var retained: nat
    var edges: seq<Edge>
    var clock: nat

    ghost function State(): Walked
      reads this
    {
      Walked(products, nodes, visiting, visited, heights, issues, complete, retained, edges, clock)
    }

    constructor (src: Source)
      ensures State() == Start && this.src == src
    {
      this.src := src;
      products, nodes, visiting, visited, heights := map[], map[], {}, {}, map[];
      issues, complete, retained, edges, clock := {}, true, 0, [], 0;
    }

    method Incomplete(reason: Lineage.State)
      modifies this
      ensures State() == Lineage.Incomplete(old(State()), reason)
    {
      complete := false;
      issues := issues + {reason};
    }

    /** Whether the deadline has passed at this check. */
    method Expired() returns (late: bool)
      modifies this
      ensures State() == Tick(old(State())) && late == Late(src, old(clock))
    {
      late := Late(src, clock);
      clock := clock + 1;
    }

    method Read(key: Key) returns (state: Lineage.State)
      modifies this
      ensures (State(), state) == Lineage.Read(src, old(State()), key)
    {
      if key in nodes {
        return nodes[key].state;
      }
      var late := Expired();
      if late {
        Incomplete(Timeout);
        return Timeout;
      }
      if |nodes| >= MAX_TRACE_PRODUCTS {
        Incomplete(ProductLimit);
        return ProductLimit;
      }
      state := Lookup(key);
    }

    /** A fresh read: classify the answer, and keep the product or the failure. */
    method Lookup(key: Key) returns (state: Lineage.State)
      modifies this
      ensures State() == Record(src, old(State()), key)
      ensures key in nodes && state == nodes[key].state
    {
      var answer := if key in src.answers then src.answers[key] else NotFound;
      var late := Expired();
      state := Unavailable;
      if late {
        state := Timeout;
      } else if answer.NotFound? {
        state := Missing;
      } else if answer.Failed? {
      } else if answer.product.key != key {
        state := IdentityMismatch;
      } else {
        var distinct := DistinctPorts(answer.product);
        if answer.encoded.None? || !distinct {
          state := Invalid;
        } else if answer.encoded.value > MAX_TRACE_METADATA - retained {
          state := MetadataLimit;
        } else {
          retained := retained + answer.encoded.value;
          state := if answer.product.deleting then Deleting else Observed(answer.health);
          products := products[key := answer.product];
        }
      }
      nodes := nodes[key := Node(key, state, if ObservedState(state) then answer.product.version else "")];
      if !ObservedState(state) {
        Incomplete(state);
      }
    }

    method Visit(p: Product, depth: nat) returns (state: Lineage.State)
      modifies this
      ensures (State(), state) == Lineage.Visit(src, old(State()), p, depth)
      decreases Remaining(depth), 2, 0
    {
      hide VisitInputs;
      var late := Expired();
      if late {
        Incomplete(Timeout);
        return Timeout;
      }
      if p.key in visiting {
        Incomplete(Cycle);
        return Cycle;
      }
      if depth >= MAX_TRACE_DEPTH ||
         (p.key in visited && depth + (if p.key in heights then heights[p.key] else 0) >= MAX_TRACE_DEPTH) {
        Incomplete(DepthLimit);
        return DepthLimit;
      }
      if p.key in visited {
        return Resolved;
      }
      visiting := visiting + {p.key};
      VisitAll(p, depth, SortedInputs(p));
      visiting := visiting - {p.key};
      visited := visited + {p.key};
      state := Resolved;
    }

    method VisitAll(p: Product, depth: nat, inputs: seq<Input>)
      requires depth < MAX_TRACE_DEPTH
      modifies this
      ensures State() == VisitInputs(src, old(State()), p, depth, inputs)
      decreases Remaining(depth), 1, 0
    {
      hide Inspect;
      var i := 0;
      while i < |inputs|
        invariant i <= |inputs|
        invariant VisitInputs(src, old(State()), p, depth, inputs) == VisitInputs(src, State(), p, depth, inputs[i..])
      {
        assert inputs[i..][0] == inputs[i] && inputs[i..][1..] == inputs[i + 1..];
        if |edges| >= MAX_TRACE_EDGES {
          Incomplete(EdgeLimit);
          return;
        }
        var late := Expired();
        if late {
          Incomplete(Timeout);
          return;
        }
        VisitOne(p, depth, inputs[i]);
        i := i + 1;
      }
    }

    /** A consumer stands at least one level above its producer. */
    method RaiseHeight(consumer: Key, producer: Key)
      modifies this
      ensures State() == Raise(old(State()), consumer, producer)
    {
      heights := heights[consumer := Max(if consumer in heights then heights[consumer] else 0,
                                         1 + if producer in heights then heights[producer] else 0)];
    }

    /** Emit one edge provisionally, inspect its producer, and rewrite the edge at its index. */
    method VisitOne(p: Product, depth: nat, input: Input)
      requires depth < MAX_TRACE_DEPTH
      modifies this
      ensures State() == Inspect(src, old(State()), p, depth, input)
      decreases Remaining(depth), 0, 0
    {
      hide Lineage.Visit, Lineage.Read, Target, Raise, Height, Max;
      var edge := NewEdge(p, depth, input);
      var index := |edges|;
      edges := edges + [edge];
      if edge.to.ns != p.key.ns {
        edge := edge.(state := CrossNamespace);
        Incomplete(CrossNamespace);
      } else if depth + 1 >= MAX_TRACE_DEPTH {
        edge := edge.(state := DepthLimit);
        Incomplete(DepthLimit);
      } else {
        var state := Read(edge.to);
        if edge.to !in products {
          edge := edge.(state := state);
        } else {
          var producer := products[edge.to];
          var contracted := Evaluated(src.evaluate(input, producer));
          if contracted == NotEvaluated {
            edge := edge.(state := Unavailable);
            Incomplete(Unavailable);
          } else {
            var reached := Visit(producer, depth + 1);
            edge := edge.(state := reached, compatibility := contracted);
          }
          RaiseHeight(p.key, edge.to);
        }
      }
      if index < |edges| {
        edges := edges[index := edge];
      }
    }
  }

  /** One trace through the object: the walk of the specification, when the root can be read. */
  method Observe(src: Source, root: Key) returns (ok: bool, walk: Walk)
    ensures fresh(walk)
    ensures ok <==> WalkFrom(src, root).Some?
    ensures ok ==> walk.State() == WalkFrom(src, root).value
  {
    hide Lineage.Visit, Lineage.Read;
    walk := new Walk(src);
    var state := walk.Read(root);
    ok := root in walk.products;
    if ok {
      var reached := walk.Visit(walk.products[root], 0);
    }
  }
}
