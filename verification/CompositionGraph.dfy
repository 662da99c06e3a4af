/** The controller's graph object, updated in place while it searches. */
module CompositionGraph {
  import opened Products
  import opened Compatibility
  import opened Composition
  import CompositionTheorems

  class Graph {
    const reader: Reader
    var products: map<Key, Product>
    var visiting: set<Key>
    var visited: set<Key>
    var heights: map<Key, nat>
    var missing: set<Key>
    var edges: nat
    var notReady: Option<Key>
    var clock: nat

    ghost function State(): Walked
      reads this
    {
      Walked(products, visiting, visited, heights, missing, edges, notReady, clock)
    }

    constructor (reader: Reader, root: Product)
      ensures State() == Start(root) && this.reader == reader
    {
      this.reader := reader;
      products, visiting, visited, heights := map[root.key := root], {}, {}, map[];
      missing, edges, notReady, clock := {}, 0, None, 0;
    }

    /** The search from one product: its state and its reason are those of the specification. */
    method Visit(p: Product, depth: nat) returns (reason: Reason)
      modifies this
      ensures (State(), reason) == Composition.Visit(reader, old(State()), p, depth)
      decreases Remaining(depth), 2, 0
    {
      hide VisitInputs;
      clock := clock + 1;
      if Expired(reader, clock - 1) {
        return DependencyUnavailable;
      }
      if p.key in visiting {
        return DependencyCycle;
      }
      if p.key in visited {
        return if depth + (if p.key in heights then heights[p.key] else 0) >= MAX_DEPTH
               then CompositionLimitExceeded else NoReason;
      }
      if depth >= MAX_DEPTH || |p.inputs| > MAX_EDGES - edges {
        return CompositionLimitExceeded;
      }
      edges := edges + |p.inputs|;
      visiting := visiting + {p.key};
      reason := VisitAll(p, depth);
      visiting := visiting - {p.key};
      if reason == NoReason {
        visited := visited + {p.key};
      }
    }

    /** The loop over an open product's inputs stops at the first reason. */
    method VisitAll(p: Product, depth: nat) returns (reason: Reason)
      requires depth < MAX_DEPTH
      modifies this
      ensures (State(), reason) == VisitInputs(reader, old(State()), p, depth, 0)
      decreases Remaining(depth), 1, 0
    {
      var i := 0;
      while i < |p.inputs|
        invariant i <= |p.inputs|
        invariant VisitInputs(reader, old(State()), p, depth, 0) == VisitInputs(reader, State(), p, depth, i)
      {
        reason := VisitOne(p, depth, p.inputs[i]);
        if reason != NoReason {
          return;
        }
        i := i + 1;
      }
      reason := NoReason;
    }

    /** Read a producer through the API unless it is known already. */
    method Read(key: Key) returns (reason: Reason)
      modifies this
      ensures (State(), reason) == Fetch(reader, old(State()), key)
    {
      reason := NoReason;
      if key !in products {
        if |products| >= MAX_PRODUCTS {
          return CompositionLimitExceeded;
        }
        if key in reader.failing {
          return DependencyUnavailable;
        }
        if key !in reader.store {
          missing := missing + {key};
          return DependencyNotFound;
        }
        products := products[key := reader.store[key]];
      }
    }

    method VisitOne(p: Product, depth: nat, input: Input) returns (reason: Reason)
      requires depth < MAX_DEPTH
      modifies this
      ensures (State(), reason) == VisitInput(reader, old(State()), p, depth, input)
      decreases Remaining(depth), 0, 0
    {
      hide Composition.Visit, Fetch, InputCompatibility, ProducerReady, Target;
      var key := Target(p.key, input);
      if key.ns != p.key.ns {
        return CrossNamespaceDependencyDenied;
      }
      reason := Read(key);
      if reason != NoReason {
        return;
      }
      var producer := products[key];
      reason := Visit(producer, depth + 1);
      if reason != NoReason {
        return;
      }
      heights := heights[p.key := Max(if p.key in heights then heights[p.key] else 0,
                                      1 + if key in heights then heights[key] else 0)];
      reason := InputCompatibility(input, producer);
      if reason != NoReason {
        return;
      }
      if !ProducerReady(producer) && notReady.None? {
        notReady := Some(key);
      }
    }
  }

  /** One whole check through the object: a quiet reader gets exactly the declarative answer. */
  method Observe(reader: Reader, root: Product) returns (reason: Reason, notReady: Option<Key>)
    requires WellKeyed(reader.store) && root.key in reader.store && reader.store[root.key] == root
    ensures reason == CompositionTheorems.Check(reader, root).1
    ensures notReady == CompositionTheorems.Check(reader, root).0.notReady
    ensures reason == NoReason ==> Acceptable(reader.store, root.key)
    ensures Quiet(reader) && Acceptable(reader.store, root.key) ==> reason == NoReason
    ensures reason == NoReason ==> (notReady.None? <==> CompositionTheorems.ProducersReady(reader.store, root.key))
  {
    var graph := new Graph(reader, root);
    reason := graph.Visit(root, 0);
    notReady := graph.notReady;
    CompositionTheorems.AcceptedIsAcceptable(reader, root);
    if Quiet(reader) && Acceptable(reader.store, root.key) {
      CompositionTheorems.AcceptableIsAccepted(reader, root);
    }
  }
}
