/** With every read answered, the lineage walk is complete exactly on graphs inside all its bounds. */
module LineageComplete {
  import opened Products
  import opened Compatibility
  import opened Digraph
  import opened Lineage
  import opened LineageKeeps
  import opened LineageFacts
  import opened LineageLedger
  import opened LineageAccount
  import opened LineageDeclared
  import LineageAccepted
  import LineagePaths
  import TraceSpec
  import Composition
  import Sums

  ghost function Reached(src: Source, root: Key): set<Key>
  {
    Composition.ReachSet(Shown(src), root)
  }

  function Links(src: Source): map<Key, set<Key>>
  {
    Adjacency(Shown(src))
  }

  /** Every chain of declared inputs from the root ends at a publishable product of the root's namespace. */
  ghost predicate AllPublishable(src: Source, root: Key)
  {
    forall k :: Reaches(Links(src), root, k) ==> Publishable(src, k) && k.ns == root.ns
  }

  /**
   The bounds of the walk, stated without reference to any search: whatever is reachable can be published from
   one namespace, fits the product, input and metadata budgets, and no chain has more than 63 edges.
   */
  ghost predicate Inspectable(src: Source, root: Key)
  {
    && AllPublishable(src, root)
    && Reached(src, root) <= Sizes(src).Keys && Reached(src, root) <= Weights(Shown(src)).Keys
    && |Reached(src, root)| <= MAX_TRACE_PRODUCTS
    && Sums.Total(Weights(Shown(src)), Reached(src, root)) <= MAX_TRACE_EDGES
    && Sums.Total(Sizes(src), Reached(src, root)) <= MAX_TRACE_METADATA
    && forall k, n: nat :: Walk(Links(src), root, k, n) ==> n < MAX_TRACE_DEPTH
  }

  lemma {:induction false} ReachedIs(src: Source, root: Key, k: Key)
    requires AllPublishable(src, root)
    ensures k in Reached(src, root) <==> Reaches(Links(src), root, k)
  {
    hide DistinctPorts, Sizes;
    if Reaches(Links(src), root, k) {
      assert Publishable(src, k);
    }
  }

  lemma {:induction false} InputLinks(src: Source, p: Product, input: Input)
    requires p.key in Shown(src) && Shown(src)[p.key] == p && input in p.inputs
    ensures Target(p.key, input) in Succ(Links(src), p.key)
  {
    hide Shown;
    var i :| 0 <= i < |p.inputs| && p.inputs[i] == input;
  }

  lemma {:induction false} LinkIsInput(src: Source, k: Key, t: Key) returns (input: Input)
    requires t in Succ(Links(src), k)
    ensures k in Shown(src) && input in Shown(src)[k].inputs && t == Target(k, input)
  {
    var p := Shown(src)[k];
    assert p.key == k;
    hide Shown;
    var i :| 0 <= i < |p.inputs| && t == Target(p.key, p.inputs[i]);
    input := p.inputs[i];
  }

  // ---------------------------------------------------------------- inside the bounds, nothing is missing

  ghost predicate HasChain(g: map<Key, set<Key>>, k: Key, n: nat)
  {
    exists x :: Walk(g, k, x, n)
  }

  /** Every height is the length of some chain. */
  ghost predicate Backed(src: Source, g: Walked)
  {
    forall k {:trigger Height(g, k)} :: HasChain(Links(src), k, Height(g, k))
  }

  ghost predicate Explored(src: Source, root: Key, g: Walked)
  {
    Measured(src, g) && Orderly(g) && g.complete && g.products.Keys <= Reached(src, root) && Backed(src, g)
  }

  /** Room for the inputs of products not opened yet, beside `own` inputs of open products. */
  ghost predicate Slack(src: Source, root: Key, g: Walked, own: nat)
  {
    var unopened := Reached(src, root) - g.visited - g.visiting;
    unopened <= Weights(Shown(src)).Keys
    && |g.edges| + own + Sums.Total(Weights(Shown(src)), unopened) <= MAX_TRACE_EDGES
  }

  ghost predicate Leads(g: map<Key, set<Key>>, a: Key, b: Key)
  {
    exists n: nat :: n > 0 && Walk(g, a, b, n)
  }

  ghost predicate OpenLead(src: Source, g: Walked, k: Key)
  {
    forall v {:trigger Leads(Links(src), v, k)} :: v in g.visiting ==> Leads(Links(src), v, k)
  }

  ghost predicate OpenReach(src: Source, g: Walked, k: Key)
  {
    forall v {:trigger Reaches(Links(src), v, k)} :: v in g.visiting ==> Reaches(Links(src), v, k)
  }

  lemma {:induction false} ExploredSame(src: Source, root: Key, g: Walked, h: Walked)
    requires Explored(src, root, g) && h.products == g.products && h.nodes == g.nodes && h.retained == g.retained
    requires h.complete == g.complete && h.heights == g.heights && h.visited !! h.visiting
    ensures Explored(src, root, h)
  {
    MeasuredSame(src, g, h);
    hide Measured, Reached, HasChain;
    forall k
      ensures HasChain(Links(src), k, Height(h, k))
    {
      assert Height(h, k) == Height(g, k);
    }
  }

  lemma {:induction false} NotOpenYet(src: Source, root: Key, g: Walked, k: Key, depth: nat)
    requires Inspectable(src, root) && Walk(Links(src), root, k, depth) && OpenLead(src, g, k) && Backed(src, g)
    ensures k !in g.visiting && depth < MAX_TRACE_DEPTH && depth + Height(g, k) < MAX_TRACE_DEPTH
  {
    hide AllPublishable, Reached, Links;
    var links := Links(src);
    if k in g.visiting {
      assert Leads(links, k, k);
      var n: nat :| n > 0 && Walk(links, k, k, n);
      assert Reaches(links, root, k);
      BoundedIsAcyclic(links, root, k, n, MAX_TRACE_DEPTH);
    }
    assert HasChain(links, k, Height(g, k));
    var x :| Walk(links, k, x, Height(g, k));
    Join(links, root, k, x, depth, Height(g, k));
  }

  /** Opening a product turns its share of the room into room for its own inputs. */
  lemma {:induction false} OpenSlack(src: Source, root: Key, g: Walked, open: Walked, p: Product, own: nat)
    requires Slack(src, root, g, own) && Measured(src, g) && p.key in g.products && g.products[p.key] == p
    requires p.key in Reached(src, root) && p.key !in g.visited && p.key !in g.visiting
    requires open.edges == g.edges && open.visited == g.visited && open.visiting == g.visiting + {p.key}
    ensures Slack(src, root, open, own + |p.inputs|)
  {
    WeightOf(src, g, p.key);
    hide Measured, Reached, Shown, Weights;
    var unopened := Reached(src, root) - g.visited - g.visiting;
    Sums.Remove(Weights(Shown(src)), unopened, p.key);
    assert unopened - {p.key} == Reached(src, root) - open.visited - open.visiting;
  }

  lemma {:induction false} CloseSlack(src: Source, root: Key, done: Walked, h: Walked, key: Key, own: nat)
    requires Slack(src, root, done, own) && key in done.visiting && h.edges == done.edges
    requires h.visited == done.visited + {key} && h.visiting == done.visiting - {key}
    ensures Slack(src, root, h, own)
  {
    hide Reached, Shown, Weights;
    assert Reached(src, root) - done.visited - done.visiting == Reached(src, root) - h.visited - h.visiting;
  }

  lemma {:induction false} OpenReaches(src: Source, g: Walked, open: Walked, k: Key)
    requires OpenLead(src, g, k) && open.visiting == g.visiting + {k}
    ensures OpenReach(src, open, k)
  {
    hide Links;
    ReachesItself(Links(src), k);
    forall v | v in open.visiting
      ensures Reaches(Links(src), v, k)
    {
      if v != k {
        assert Leads(Links(src), v, k);
      }
    }
  }

  lemma {:induction false} OpenLeads(src: Source, g: Walked, found: Walked, k: Key, t: Key)
    requires OpenReach(src, g, k) && found.visiting == g.visiting && t in Succ(Links(src), k)
    ensures OpenLead(src, found, t)
  {
    hide Links;
    forall v | v in found.visiting
      ensures Leads(Links(src), v, t)
    {
      assert Reaches(Links(src), v, k);
      var n: nat :| Walk(Links(src), v, k, n);
      Extend(Links(src), v, k, t, n);
    }
  }

  lemma {:induction false} ReachSame(src: Source, g: Walked, h: Walked, k: Key)
    requires OpenReach(src, g, k) && h.visiting == g.visiting
    ensures OpenReach(src, h, k)
  {
  }

  lemma {:induction false} VisitExplores(src: Source, root: Key, g: Walked, p: Product, depth: nat, own: nat)
    requires Canonical(src) && src.deadline.None? && Inspectable(src, root)
    requires Explored(src, root, g) && p.key in g.products && g.products[p.key] == p
    requires Walk(Links(src), root, p.key, depth) && OpenLead(src, g, p.key) && Slack(src, root, g, own)
    ensures var (h, state) := Visit(src, g, p, depth);
            Explored(src, root, h) && Slack(src, root, h, own) && state == Resolved
    decreases Remaining(depth), 2, 0
  {
    hide Canonical, Inspectable, Measured, Backed, Reached, Slack, OpenLead, VisitInputs, Links, SortedInputs,
         OpenReach;
    NotOpenYet(src, root, g, p.key, depth);
    ExploredSame(src, root, g, Tick(g));
    SlackSame(src, root, g, Tick(g), own);
    if p.key !in g.visited {
      var open := Tick(g).(visiting := g.visiting + {p.key});
      ExploredSame(src, root, g, open);
      OpenSlack(src, root, g, open, p, own);
      OpenReaches(src, g, open, p.key);
      SortedMembers(p);
      SortedLength(p);
      VisitInputsExplores(src, root, open, p, depth, own, SortedInputs(p));
      VisitInputsKeeps(src, open, p, depth, SortedInputs(p));
      var done := VisitInputs(src, open, p, depth, SortedInputs(p));
      VisitingKept(src, open, done, open.visiting - {p.key});
      hide Kept;
      var h := done.(visiting := done.visiting - {p.key}, visited := done.visited + {p.key});
      ExploredSame(src, root, done, h);
      CloseSlack(src, root, done, h, p.key, own);
    }
  }

  lemma {:induction false} SlackSame(src: Source, root: Key, g: Walked, h: Walked, own: nat)
    requires Slack(src, root, g, own) && h.edges == g.edges && h.visited == g.visited && h.visiting == g.visiting
    ensures Slack(src, root, h, own)
  {
    hide Reached, Shown, Weights;
  }

  lemma {:induction false} VisitInputsExplores(src: Source, root: Key, g: Walked, p: Product, depth: nat, own: nat,
                                               inputs: seq<Input>)
    requires Canonical(src) && src.deadline.None? && Inspectable(src, root)
    requires depth < MAX_TRACE_DEPTH && Explored(src, root, g)
    requires p.key in g.products && g.products[p.key] == p && p.key in g.visiting
    requires forall x :: x in inputs ==> x in p.inputs
    requires Walk(Links(src), root, p.key, depth) && OpenReach(src, g, p.key) && Slack(src, root, g, own + |inputs|)
    ensures var h := VisitInputs(src, g, p, depth, inputs);
            Explored(src, root, h) && Slack(src, root, h, own)
    decreases Remaining(depth), 1, |inputs|
  {
    hide *;
    if inputs == [] {
      EmptyInputs(src, g, p, depth);
    } else {
      SlackFits(src, root, g, own + |inputs|);
      TickExplored(src, root, g, p.key, own + |inputs|);
      LoopUnfolds(src, g, p, depth, inputs);
      var next := Inspect(src, Tick(g), p, depth, inputs[0]);
      var rest := inputs[1..];
      assert |inputs| == |rest| + 1 && inputs[0] in inputs;
      assert forall x :: x in rest ==> x in inputs;
      InspectExplores(src, root, Tick(g), p, depth, own + |rest|, inputs[0]);
      ExploredOrderly(src, root, Tick(g));
      InspectKeeps(src, Tick(g), p, depth, inputs[0]);
      KeptParts(src, Tick(g), next, Tick(g).visiting - {p.key});
      KeptProduct(src, Tick(g), next, Tick(g).visiting - {p.key}, p.key);
      ReachSame(src, Tick(g), next, p.key);
      VisitInputsExplores(src, root, next, p, depth, own, rest);
    }
  }

  lemma {:induction false} KeptProduct(src: Source, g: Walked, h: Walked, open: set<Key>, k: Key)
    requires Kept(src, g, h, open) && k in g.products
    ensures k in h.products && h.products[k] == g.products[k]
  {
  }

  lemma {:induction false} ExploredOrderly(src: Source, root: Key, g: Walked)
    requires Explored(src, root, g)
    ensures Orderly(g) && Measured(src, g) && g.complete
  {
    hide Measured, Backed, Reached, Orderly;
  }

  lemma {:induction false} EmptyInputs(src: Source, g: Walked, p: Product, depth: nat)
    requires depth < MAX_TRACE_DEPTH
    ensures VisitInputs(src, g, p, depth, []) == g
  {
  }

  lemma {:induction false} SlackFits(src: Source, root: Key, g: Walked, own: nat)
    requires Slack(src, root, g, own) && own > 0 && src.deadline.None?
    ensures |g.edges| < MAX_TRACE_EDGES && !Late(src, g.clock)
  {
    hide Reached, Shown, Weights;
  }

  lemma {:induction false} TickExplored(src: Source, root: Key, g: Walked, key: Key, own: nat)
    requires Explored(src, root, g) && Slack(src, root, g, own) && OpenReach(src, g, key)
    ensures Explored(src, root, Tick(g)) && Slack(src, root, Tick(g), own) && OpenReach(src, Tick(g), key)
    ensures Tick(g).visiting == g.visiting && Tick(g).products == g.products
  {
    ExploredSame(src, root, g, Tick(g));
    SlackSame(src, root, g, Tick(g), own);
    ReachSame(src, g, Tick(g), key);
  }

  /** A reachable product that is not known yet can be read: it is publishable and fits the remaining budgets. */
  lemma {:induction false} ReadExplores(src: Source, root: Key, g: Walked, key: Key)
    requires src.deadline.None? && Inspectable(src, root) && Explored(src, root, g) && key in Reached(src, root)
    ensures var found := Read(src, g, key).0;
            Explored(src, root, found) && key in found.products && ReadOnly(g, found)
  {
    hide Backed, Links, AllPublishable, Reached, Record;
    ReadMeasured(src, g, key);
    ReadOrderly(src, g, key);
    if key !in g.nodes {
      RoomFor(src, root, g, key);
      RecordFresh(src, Tick(g), key);
      hide Inspectable, Measured, Shown, Sizes;
      BackedSame(src, g, Read(src, g, key).0);
    }
  }

  lemma {:induction false} BackedSame(src: Source, g: Walked, h: Walked)
    requires Backed(src, g) && h.heights == g.heights
    ensures Backed(src, h)
  {
    hide HasChain, Links;
    forall k
      ensures HasChain(Links(src), k, Height(h, k))
    {
      assert Height(h, k) == Height(g, k);
    }
  }

  lemma {:induction false} RoomFor(src: Source, root: Key, g: Walked, key: Key)
    requires Inspectable(src, root) && Explored(src, root, g) && key in Reached(src, root) && key !in g.nodes
    ensures |g.nodes| < MAX_TRACE_PRODUCTS && Publishable(src, key)
    ensures key in Sizes(src) && g.retained + Sizes(src)[key] <= MAX_TRACE_METADATA
  {
    hide *;
    InspectableRoom(src, root);
    ExploredBooks(src, root, g);
    PublishableHere(src, root, key);
    var both := g.products.Keys + {key};
    SubsetCount(both, Reached(src, root));
    assert |g.nodes| == |g.nodes.Keys| && |both| == |g.nodes| + 1;
    Sums.Add(Sizes(src), g.products.Keys, key);
    Sums.Grows(Sizes(src), both, Reached(src, root));
  }

  lemma {:induction false} InspectableRoom(src: Source, root: Key)
    requires Inspectable(src, root)
    ensures AllPublishable(src, root) && Reached(src, root) <= Sizes(src).Keys &&
            |Reached(src, root)| <= MAX_TRACE_PRODUCTS
    ensures Sums.Total(Sizes(src), Reached(src, root)) <= MAX_TRACE_METADATA
  {
    hide AllPublishable, Reached, Sizes, Shown;
  }

  lemma {:induction false} ExploredBooks(src: Source, root: Key, g: Walked)
    requires Explored(src, root, g)
    ensures g.nodes.Keys == g.products.Keys <= Reached(src, root)
    ensures g.retained == Sums.Total(Sizes(src), g.products.Keys)
  {
    hide Backed, Reached, Sizes, Shown, Publishable;
  }

  lemma {:induction false} PublishableHere(src: Source, root: Key, key: Key)
    requires AllPublishable(src, root) && key in Reached(src, root)
    ensures Publishable(src, key)
  {
    ReachedIs(src, root, key);
    hide Reached, Shown, Links, Publishable;
  }

  lemma {:induction false} RecordFresh(src: Source, g: Walked, key: Key)
    requires src.deadline.None? && Publishable(src, key) && key !in g.nodes
    requires key in Sizes(src) && g.retained + Sizes(src)[key] <= MAX_TRACE_METADATA
    ensures var h := Record(src, g, key);
            h == Tick(g).(nodes := h.nodes, products := g.products[key := h.products[key]], retained := h.retained)
            && key in h.products
  {
    hide DistinctPorts;
  }

  lemma {:induction false} RaiseBacked(src: Source, g: Walked, consumer: Key, producer: Key)
    requires Backed(src, g) && producer in Succ(Links(src), consumer)
    ensures Backed(src, Raise(g, consumer, producer))
  {
    hide Links;
    var h := Raise(g, consumer, producer);
    forall k
      ensures HasChain(Links(src), k, Height(h, k))
    {
      assert HasChain(Links(src), k, Height(g, k)) && HasChain(Links(src), producer, Height(g, producer));
      if k == consumer && Height(h, k) != Height(g, k) {
        var x :| Walk(Links(src), producer, x, Height(g, producer));
        assert Walk(Links(src), consumer, x, 1 + Height(g, producer));
      }
    }
  }

  function Emitted(g: Walked, p: Product, depth: nat, input: Input): Walked
  {
    g.(edges := g.edges + [NewEdge(p, depth, input)])
  }

  /** Inside the bounds, the producer of an input is found, evaluated, and ready to be visited. */
  lemma {:induction false} ProducerExplored(src: Source, root: Key, g: Walked, p: Product, depth: nat, own: nat,
                                            input: Input)
    requires Canonical(src) && src.deadline.None? && Inspectable(src, root)
    requires depth < MAX_TRACE_DEPTH && Explored(src, root, g)
    requires p.key in g.products && g.products[p.key] == p && input in p.inputs
    requires Walk(Links(src), root, p.key, depth) && OpenReach(src, g, p.key) && Slack(src, root, g, own + 1)
    ensures var key := Target(p.key, input);
            var found := Read(src, Emitted(g, p, depth, input), key).0;
            && depth + 1 < MAX_TRACE_DEPTH && key.ns == p.key.ns && key in Succ(Links(src), p.key)
            && Explored(src, root, found) && Orderly(found) && Slack(src, root, found, own)
            && key in found.products && found.products[key].key == key
            && Evaluated(src.evaluate(input, found.products[key])) != NotEvaluated
            && Walk(Links(src), root, key, depth + 1) && OpenLead(src, found, key)
  {
    hide *;
    var key := Target(p.key, input);
    TargetExplored(src, root, g, p, depth, input);
    EmitExplored(src, root, g, p, depth, own, input);
    var emitted := Emitted(g, p, depth, input);
    ReadExplores(src, root, emitted, key);
    var found := Read(src, emitted, key).0;
    FoundSame(emitted, found);
    ExploredOrderly(src, root, found);
    MeasuredKey(src, found, key);
    CanonicalNever(src, input, found.products[key]);
    SlackSame(src, root, emitted, found, own);
    OpenLeads(src, g, found, p.key, key);
  }

  lemma {:induction false} RemainingFalls(depth: nat)
    requires depth < MAX_TRACE_DEPTH
    ensures Remaining(depth + 1) < Remaining(depth)
  {
  }

  lemma {:induction false} InspectExplores(src: Source, root: Key, g: Walked, p: Product, depth: nat, own: nat,
                                           input: Input)
    requires Canonical(src) && src.deadline.None? && Inspectable(src, root)
    requires depth < MAX_TRACE_DEPTH && Explored(src, root, g)
    requires p.key in g.products && g.products[p.key] == p && p.key in g.visiting && input in p.inputs
    requires Walk(Links(src), root, p.key, depth) && OpenReach(src, g, p.key) && Slack(src, root, g, own + 1)
    ensures var h := Inspect(src, g, p, depth, input);
            Explored(src, root, h) && Slack(src, root, h, own)
    decreases Remaining(depth), 0, 0
  {
    hide *;
    RemainingFalls(depth);
    ProducerExplored(src, root, g, p, depth, own, input);
    var key := Target(p.key, input);
    var found := Read(src, Emitted(g, p, depth, input), key).0;
    VisitExplores(src, root, found, found.products[key], depth + 1, own);
    InspectConcludes(src, root, g, p, depth, own, input);
  }

  lemma {:induction false} InspectConcludes(src: Source, root: Key, g: Walked, p: Product, depth: nat, own: nat,
                                            input: Input)
    requires depth + 1 < MAX_TRACE_DEPTH && Target(p.key, input).ns == p.key.ns
    requires Target(p.key, input) in Succ(Links(src), p.key)
    requires var key := Target(p.key, input);
             var found := Read(src, Emitted(g, p, depth, input), key).0;
             && key in found.products && Evaluated(src.evaluate(input, found.products[key])) != NotEvaluated
             && Explored(src, root, Visit(src, found, found.products[key], depth + 1).0)
             && Slack(src, root, Visit(src, found, found.products[key], depth + 1).0, own)
    ensures var h := Inspect(src, g, p, depth, input);
            Explored(src, root, h) && Slack(src, root, h, own)
  {
    hide *;
    InspectIs(src, g, p, depth, input);
    var key := Target(p.key, input);
    var found := Read(src, Emitted(g, p, depth, input), key).0;
    var (below, reached) := Visit(src, found, found.products[key], depth + 1);
    var contracted := Evaluated(src.evaluate(input, found.products[key]));
    var final := NewEdge(p, depth, input).(state := reached, compatibility := contracted);
    FinishExplored(src, root, below, p.key, key, |g.edges|, final, own);
  }

  lemma {:induction false} FoundSame(g: Walked, found: Walked)
    requires ReadOnly(g, found)
    ensures found.visiting == g.visiting && found.visited == g.visited && found.edges == g.edges &&
            found.heights == g.heights
  {
  }

  lemma {:induction false} EmitExplored(src: Source, root: Key, g: Walked, p: Product, depth: nat, own: nat,
                                        input: Input)
    requires Explored(src, root, g) && Slack(src, root, g, own + 1)
    ensures var emitted := Emitted(g, p, depth, input);
            Explored(src, root, emitted) && Slack(src, root, emitted, own) && emitted.visiting == g.visiting
  {
    var emitted := g.(edges := g.edges + [NewEdge(p, depth, input)]);
    assert Orderly(g) by { ExploredOrderly(src, root, g); }
    ExploredSame(src, root, g, emitted);
    hide Explored, Reached, Shown, Weights, Target;
  }

  /** The target of a declared input of a reachable product is one edge further, publishable and in the namespace. */
  lemma {:induction false} TargetExplored(src: Source, root: Key, g: Walked, p: Product, depth: nat, input: Input)
    requires Inspectable(src, root) && Explored(src, root, g)
    requires p.key in g.products && g.products[p.key] == p && input in p.inputs
    requires Walk(Links(src), root, p.key, depth)
    ensures var t := Target(p.key, input);
            && t in Succ(Links(src), p.key) && Walk(Links(src), root, t, depth + 1)
            && t in Reached(src, root) && t.ns == p.key.ns && depth + 1 < MAX_TRACE_DEPTH
  {
    var t := Target(p.key, input);
    assert p.key in Shown(src) && Shown(src)[p.key] == p;
    InputLinks(src, p, input);
    hide Explored, Reached, Publishable, Shown, Sizes, Weights, Links, Target;
    Extend(Links(src), root, p.key, t, depth);
    assert Reaches(Links(src), root, p.key) && Reaches(Links(src), root, t);
    ReachedIs(src, root, t);
  }

  /** Inside the bounds, one iteration reads its producer, visits it, and rewrites its edge. */
  lemma {:induction false} InspectIs(src: Source, g: Walked, p: Product, depth: nat, input: Input)
    requires depth + 1 < MAX_TRACE_DEPTH && Target(p.key, input).ns == p.key.ns
    requires var key := Target(p.key, input);
             var found := Read(src, Emitted(g, p, depth, input), key).0;
             key in found.products && Evaluated(src.evaluate(input, found.products[key])) != NotEvaluated
    ensures var key := Target(p.key, input);
            var found := Read(src, Emitted(g, p, depth, input), key).0;
            var contracted := Evaluated(src.evaluate(input, found.products[key]));
            var (below, reached) := Visit(src, found, found.products[key], depth + 1);
            Inspect(src, g, p, depth, input) ==
            Rewrite(Raise(below, p.key, key), |g.edges|,
                    NewEdge(p, depth, input).(state := reached, compatibility := contracted))
  {
    hide Read, Visit, Raise, Rewrite;
  }

  lemma {:induction false} FinishExplored(src: Source, root: Key, below: Walked, consumer: Key, producer: Key,
                                          index: nat, final: Edge, own: nat)
    requires Explored(src, root, below) && Slack(src, root, below, own) && producer in Succ(Links(src), consumer)
    ensures var h := Rewrite(Raise(below, consumer, producer), index, final);
            Explored(src, root, h) && Slack(src, root, h, own)
  {
    hide Reached, Shown, Weights, Links, Sizes, Publishable, Backed, Raise;
    RaiseBacked(src, below, consumer, producer);
    RaiseOnly(below, consumer, producer);
    var h := Rewrite(Raise(below, consumer, producer), index, final);
    MeasuredSame(src, below, h);
    hide Measured;
    BackedSame(src, Raise(below, consumer, producer), h);
  }

  lemma {:induction false} RaiseOnly(g: Walked, consumer: Key, producer: Key)
    ensures Raise(g, consumer, producer) == g.(heights := Raise(g, consumer, producer).heights)
  {
  }

  lemma {:induction false} StartExplored(src: Source, root: Key)
    requires Inspectable(src, root)
    ensures root in Reached(src, root) && Walk(Links(src), root, root, 0)
    ensures Explored(src, root, Start)
  {
    ReachesItself(Links(src), root);
    ReachedIs(src, root, root);
    hide Inspectable, Reached, Shown, Sizes;
    forall k
      ensures HasChain(Links(src), k, Height(Start, k))
    {
      assert Walk(Links(src), k, k, 0);
    }
  }

  /** The walk of an inspectable graph misses nothing. */
  lemma {:induction false} InspectableIsComplete(src: Source, root: Key)
    requires Canonical(src) && src.deadline.None? && Inspectable(src, root)
    ensures WalkFrom(src, root).Some? && WalkFrom(src, root).value.complete
  {
    hide *;
    StartExplored(src, root);
    ReadExplores(src, root, Start, root);
    var found := Read(src, Start, root).0;
    FoundSame(Start, found);
    StartIs();
    ExploredOrderly(src, root, found);
    MeasuredKey(src, found, root);
    var p := found.products[root];
    StartSlack(src, root, found);
    NoneOpen(src, found, root);
    VisitExplores(src, root, found, p, 0, 0);
    ExploredOrderly(src, root, Visit(src, found, p, 0).0);
    LineageAccepted.WalkIs(src, root);
  }

  lemma {:induction false} StartIs()
    ensures Start.visiting == {} && Start.visited == {} && Start.edges == [] && Start.heights == map[]
  {
  }

  lemma {:induction false} NoneOpen(src: Source, found: Walked, k: Key)
    requires found.visiting == {}
    ensures OpenLead(src, found, k)
  {
  }

  lemma {:induction false} StartSlack(src: Source, root: Key, found: Walked)
    requires Inspectable(src, root) && found.visiting == {} && found.visited == {} && found.edges == []
    ensures Slack(src, root, found, 0)
  {
    hide Reached, Shown, Sizes, Weights, AllPublishable;
    assert Reached(src, root) - found.visited - found.visiting == Reached(src, root);
  }

  // ---------------------------------------------------------------- a complete walk was inside the bounds

  /** The one resolved edge that shows an input of a consumer. */
  ghost predicate ShownOnce(edges: seq<Edge>, k: Key, input: Input)
  {
    exists j {:trigger edges[j]} :: 0 <= j < |edges| && edges[j].state == Resolved && ShowsAt(edges, j, k, input) &&
      forall i {:trigger edges[i]} :: 0 <= i < |edges| && i != j ==>
        !(edges[i].from == k && edges[i].input == input.name)
  }

  predicate ShowsAt(edges: seq<Edge>, j: nat, k: Key, input: Input)
  {
    j < |edges| && edges[j].from == k && edges[j].input == input.name && edges[j].to == Target(k, input)
  }

  /** The edges are exactly the declared inputs of the reachable products: each once, resolved, and no others. */
  ghost predicate EmitsAll(src: Source, root: Key, edges: seq<Edge>)
  {
    && (forall k, input {:trigger ShownOnce(edges, k, input)} ::
          k in Reached(src, root) && k in Shown(src) && input in Shown(src)[k].inputs ==> ShownOnce(edges, k, input))
    && (forall e :: e in edges ==>
          e.from in Reached(src, root) && Declared(src, Shown(src), e) && e.compatibility != NotEvaluated)
    && |edges| == Sums.Total(Weights(Shown(src)), Reached(src, root) * Weights(Shown(src)).Keys)
  }

  /** What the earlier inductions say about a complete walk from its root. */
  ghost predicate Accomplished(src: Source, root: Key, g: Walked)
  {
    && Measured(src, g) && Orderly(g) && g.complete
    && root in g.visited && Height(g, root) < MAX_TRACE_DEPTH
    && (forall k {:trigger k in g.visited} :: k in g.visited ==>
        k in g.products && CoversInputs(g.edges, k, g.products[k].inputs))
    && g.visited <= Weights(Shown(src)).Keys
    && |g.edges| == Sums.Total(Weights(Shown(src)), g.visited)
    && AllDeclared(src, 0, g)
  }

  lemma {:induction false} StartMeasured(src: Source, root: Key)
    ensures Measured(src, Read(src, Start, root).0) && Orderly(Read(src, Start, root).0)
    ensures ReadOnly(Start, Read(src, Start, root).0)
  {
    assert Measured(src, Start) && Orderly(Start) by {
      hide Shown, Sizes;
    }
    ReadMeasured(src, Start, root);
    ReadOrderly(src, Start, root);
    ReadGrows(src, Start, root);
  }

  lemma {:induction false} WalkAccomplishes(src: Source, root: Key)
    requires WalkFrom(src, root).Some? && WalkFrom(src, root).value.complete
    ensures Accomplished(src, root, WalkFrom(src, root).value)
  {
    var found := Read(src, Start, root).0;
    assert root in found.products by { hide Read, Visit; }
    var p := found.products[root];
    hide *;
    LineageAccepted.WalkIs(src, root);
    StartMeasured(src, root);
    StartIs();
    FoundSame(Start, found);
    MeasuredKey(src, found, root);
    StartShown(src, found);
    VisitAccounted(src, found, p, 0);
    VisitMeasured(src, found, p, 0);
    VisitDeclares(src, found, p, 0);
    VisitKeeps(src, found, p, 0);
    var (g, state) := Visit(src, found, p, 0);
    OrderlyKept(src, found, g, found.visiting);
    AccomplishedIs(src, root, found, g, state);
  }

  lemma {:induction false} StartShown(src: Source, found: Walked)
    requires found.visited == {}
    ensures VisitedShown(src, found)
  {
  }

  lemma {:induction false} AccomplishedIs(src: Source, root: Key, found: Walked, g: Walked, state: State)
    requires found.visited == {} && found.edges == [] && g.complete
    requires VisitAccount(src, found, g, state, root, 0) && Measured(src, g) && Orderly(g)
    requires AllDeclared(src, |found.edges|, g)
    ensures Accomplished(src, root, g)
  {
    hide CoversInputs, Measured, Shown, Weights, AllDeclared;
    assert g.visited - found.visited == g.visited;
  }

  /** In a complete walk every edge is resolved: producers of finished products are finished, with less height. */
  lemma {:induction false} InputFinished(src: Source, root: Key, g: Walked, k: Key, input: Input)
    requires Accomplished(src, root, g) && LineageAccepted.Finished(src, root, g)
    requires k in g.visited && input in g.products[k].inputs
    ensures ShownOnce(g.edges, k, input)
    ensures Target(k, input) in g.visited && Height(g, Target(k, input)) < Height(g, k)
  {
    hide Measured, Books, LineagePaths.Traced, AllDeclared, AllFacts, Target, Weights, Shown;
    assert CoversInputs(g.edges, k, g.products[k].inputs);
    CoveredInput(g.edges, k, g.products[k].inputs, input);
    var e :| e in g.edges && e.from == k && e.input == input.name && e.to == Target(k, input);
    var j :| 0 <= j < |g.edges| && g.edges[j] == e;
    CompleteResolves(src, root, g, e);
    hide Accomplished;
    LineageAccepted.FallsAt(src, root, g, e);
    assert ShowsAt(g.edges, j, k, input);
    OnlyOnce(g.edges, j, k, input);
  }

  lemma {:induction false} CoveredInput(edges: seq<Edge>, k: Key, inputs: seq<Input>, input: Input)
    requires CoversInputs(edges, k, inputs) && input in inputs
    ensures Shows(edges, k, input)
  {
    hide Shows;
    var i :| 0 <= i < |inputs| && inputs[i] == input;
    assert Shows(edges, k, inputs[i]);
  }

  lemma {:induction false} CompleteResolves(src: Source, root: Key, g: Walked, e: Edge)
    requires LineageAccepted.Finished(src, root, g) && g.complete && e in g.edges
    ensures e.state == Resolved && e.compatibility != NotEvaluated && e.from in g.visited
  {
    hide LineagePaths.Traced, Consistent, NodeFacts, TargetFacts, ContractFacts;
    var j :| 0 <= j < |g.edges| && g.edges[j] == e;
    assert EdgeFacts(src, root, g, g.edges[j]);
  }

  lemma {:induction false} OnlyOnce(edges: seq<Edge>, j: nat, k: Key, input: Input)
    requires Consistent(edges, 0) && ShowsAt(edges, j, k, input) && edges[j].state == Resolved
    ensures ShownOnce(edges, k, input)
  {
    forall i {:trigger edges[i]} | 0 <= i < |edges| && i != j
      ensures !(edges[i].from == k && edges[i].input == input.name)
    {
      assert i < j || j < i;
    }
  }

  /** The finished products are closed under declared inputs, and their heights fall along them. */
  lemma {:induction false} VisitedClosed(src: Source, root: Key, g: Walked)
    requires Accomplished(src, root, g) && LineageAccepted.Finished(src, root, g)
    ensures forall x, y {:trigger y in Succ(Links(src), x)} :: x in g.visited && y in Succ(Links(src), x) ==>
              y in g.visited && Height(g, y) < Height(g, x)
  {
    forall x, y {:trigger y in Succ(Links(src), x)} | x in g.visited && y in Succ(Links(src), x)
      ensures y in g.visited && Height(g, y) < Height(g, x)
    {
      var input := LinkIsInput(src, x, y);
      VisitedFaithful(src, root, g, x);
      hide Accomplished, LineageAccepted.Finished, Links, Shown, Target, ShownOnce;
      InputFinished(src, root, g, x, input);
    }
  }

  lemma {:induction false} VisitedFaithful(src: Source, root: Key, g: Walked, k: Key)
    requires Accomplished(src, root, g) && k in g.visited
    ensures k in g.products && k in Shown(src) && g.products[k] == Shown(src)[k] && Publishable(src, k)
  {
    hide Shown, Sizes, CoversInputs, AllDeclared, Publishable;
  }

  lemma {:induction false} VisitedBounds(src: Source, root: Key, g: Walked)
    requires Accomplished(src, root, g) && LineageAccepted.Finished(src, root, g)
    ensures forall k, n: nat {:trigger Walk(Links(src), root, k, n)} :: Walk(Links(src), root, k, n) ==>
              k in g.visited && n < MAX_TRACE_DEPTH
  {
    VisitedClosed(src, root, g);
    var rank := map k | k in g.visited :: Height(g, k);
    assert root in g.visited && Height(g, root) < MAX_TRACE_DEPTH;
    hide Accomplished, LineageAccepted.Finished, Links;
    forall k, n: nat {:trigger Walk(Links(src), root, k, n)} | Walk(Links(src), root, k, n)
      ensures k in g.visited && n < MAX_TRACE_DEPTH
    {
      RankFalls(Links(src), g.visited, rank, root, k, n);
    }
  }

  /** Every product of a complete walk, finished or only read, is reachable through declared inputs. */
  lemma {:induction false} NodesAreReached(src: Source, root: Key, g: Walked, k: Key)
    requires Accomplished(src, root, g) && LineageAccepted.Finished(src, root, g) && k in g.nodes
    ensures Reaches(Links(src), root, k)
  {
    var refs := TraceSpec.References(g.edges, g.nodes.Keys);
    LineageAccepted.NodeReached(root, g, k);
    hide LineageAccepted.Finished, TraceSpec.References, Links;
    forall x, y | y in Succ(refs, x)
      ensures y in Succ(Links(src), x)
    {
      TraceSpec.ReferenceSucc(g.edges, g.nodes.Keys, x, y);
      var e :| e in g.edges && e.from == x && e.to == y && e.to in g.nodes.Keys;
      EdgeLinks(src, root, g, e);
    }
    MonotoneReach(refs, Links(src), root, k);
  }

  lemma {:induction false} EdgeLinks(src: Source, root: Key, g: Walked, e: Edge)
    requires Accomplished(src, root, g) && e in g.edges
    ensures e.to in Succ(Links(src), e.from) && Declared(src, Shown(src), e)
  {
    var j :| 0 <= j < |g.edges| && g.edges[j] == e;
    assert Declared(src, g.products, g.edges[j]);
    hide CoversInputs, Sizes, Publishable, DistinctPorts, Links;
    assert SubProducts(g.products, Shown(src)) by {
      hide Shown;
    }
    DeclaredLasts(src, g.products, Shown(src), e);
    hide Accomplished, AllDeclared;
    var input :| input in Shown(src)[e.from].inputs && Says(src, Shown(src), e, input);
    InputLinks(src, Shown(src)[e.from], input);
  }

  lemma {:induction false} VisitedPublishes(src: Source, root: Key, g: Walked)
    requires Accomplished(src, root, g) && LineageAccepted.Finished(src, root, g)
    ensures AllPublishable(src, root)
    ensures forall k :: Reaches(Links(src), root, k) ==> k in g.visited
  {
    VisitedBounds(src, root, g);
    hide Accomplished, LineageAccepted.Finished, Links, Shown, Publishable;
    forall k | Reaches(Links(src), root, k)
      ensures k in g.visited && Publishable(src, k) && k.ns == root.ns
    {
      var n: nat :| Walk(Links(src), root, k, n);
      VisitedFaithful(src, root, g, k);
      VisitedNamespace(src, root, g, k);
    }
  }

  lemma {:induction false} VisitedIsReached(src: Source, root: Key, g: Walked)
    requires Accomplished(src, root, g) && LineageAccepted.Finished(src, root, g)
    ensures g.visited == Reached(src, root) == g.products.Keys
    ensures AllPublishable(src, root)
  {
    hide *;
    VisitedPublishes(src, root, g);
    VisitedKnown(src, root, g);
    forall k | k in g.products
      ensures k in Reached(src, root)
    {
      NodesAreReached(src, root, g, k);
      ReachedIs(src, root, k);
    }
    forall k | k in Reached(src, root)
      ensures k in g.visited
    {
      ReachedIs(src, root, k);
    }
  }

  lemma {:induction false} VisitedKnown(src: Source, root: Key, g: Walked)
    requires Accomplished(src, root, g) && LineageAccepted.Finished(src, root, g)
    ensures g.visited <= g.products.Keys <= g.nodes.Keys
  {
    hide LineageAccepted.Finished, Measured, CoversInputs, AllDeclared;
  }

  lemma {:induction false} VisitedNamespace(src: Source, root: Key, g: Walked, k: Key)
    requires LineageAccepted.Finished(src, root, g) && k in g.visited
    ensures k.ns == root.ns
  {
    hide AllFacts, LineagePaths.Traced, Consistent, NodeFacts;
    PlacedNamespace(root, g, k);
  }

  lemma {:induction false} CompleteFits(src: Source, root: Key, g: Walked)
    requires Accomplished(src, root, g) && LineageAccepted.Finished(src, root, g)
    requires g.visited == Reached(src, root) == g.products.Keys && AllPublishable(src, root)
    ensures Inspectable(src, root)
    ensures Reached(src, root) <= Weights(Shown(src)).Keys
    ensures |g.edges| == Sums.Total(Weights(Shown(src)), Reached(src, root))
  {
    VisitedBounds(src, root, g);
    BooksCount(src, root, g);
    Counted(src, root, g);
    hide LineageAccepted.Finished, Accomplished, AllPublishable, Reached, Shown, Sizes, Weights, Links;
  }

  lemma {:induction false} BooksCount(src: Source, root: Key, g: Walked)
    requires LineageAccepted.Finished(src, root, g)
    ensures |g.products.Keys| <= MAX_TRACE_PRODUCTS && |g.edges| <= MAX_TRACE_EDGES
  {
    hide AllFacts, LineagePaths.Traced, Consistent, NodeFacts;
    SubsetCount(g.products.Keys, g.nodes.Keys);
    assert |g.nodes.Keys| == |g.nodes|;
  }

  lemma {:induction false} Counted(src: Source, root: Key, g: Walked)
    requires Accomplished(src, root, g) && g.visited == g.products.Keys
    ensures g.visited <= Weights(Shown(src)).Keys && g.visited <= Sizes(src).Keys
    ensures |g.edges| == Sums.Total(Weights(Shown(src)), g.visited)
    ensures Sums.Total(Sizes(src), g.visited) <= MAX_TRACE_METADATA
  {
    hide CoversInputs, Shown, Sizes, Weights, AllDeclared, Publishable;
  }

  lemma {:induction false} CompleteEmits(src: Source, root: Key, g: Walked)
    requires Accomplished(src, root, g) && LineageAccepted.Finished(src, root, g)
    requires g.visited == Reached(src, root)
    requires Reached(src, root) <= Weights(Shown(src)).Keys
    requires |g.edges| == Sums.Total(Weights(Shown(src)), Reached(src, root))
    ensures EmitsAll(src, root, g.edges)
  {
    hide Reached, Links, Weights, Declared, ShownOnce, LineageAccepted.Finished, Shown, Accomplished;
    assert Reached(src, root) * Weights(Shown(src)).Keys == Reached(src, root);
    forall k, input {:trigger ShownOnce(g.edges, k, input)}
      | k in Reached(src, root) && k in Shown(src) && input in Shown(src)[k].inputs
      ensures ShownOnce(g.edges, k, input)
    {
      VisitedFaithful(src, root, g, k);
      InputFinished(src, root, g, k, input);
    }
    forall e | e in g.edges
      ensures e.from in Reached(src, root) && Declared(src, Shown(src), e) && e.compatibility != NotEvaluated
    {
      EdgeLinks(src, root, g, e);
      CompletedWalk(src, root, g);
      CompleteResolves(src, root, g, e);
    }
  }

  lemma {:induction false} CompletedWalk(src: Source, root: Key, g: Walked)
    requires Accomplished(src, root, g)
    ensures g.complete
  {
    hide Measured, CoversInputs, AllDeclared;
  }

  /** A complete walk shows the reachable products and nothing else, each declared input exactly once. */
  lemma {:induction false} CompleteIsInspectable(src: Source, root: Key)
    requires Canonical(src) && WalkFrom(src, root).Some? && WalkFrom(src, root).value.complete
    ensures Inspectable(src, root)
    ensures WalkFrom(src, root).value.products.Keys == Reached(src, root)
    ensures EmitsAll(src, root, WalkFrom(src, root).value.edges)
  {
    hide *;
    WalkAccomplishes(src, root);
    LineageAccepted.WalkFinishes(src, root);
    var g := WalkFrom(src, root).value;
    VisitedIsReached(src, root, g);
    CompleteFits(src, root, g);
    CompleteEmits(src, root, g);
  }

  /** With every read answered in time, the walk is complete exactly when the graph is inside every bound. */
  lemma {:induction false} CompleteExactlyWhenInspectable(src: Source, root: Key)
    requires Canonical(src) && src.deadline.None?
    ensures WalkFrom(src, root).Some? && WalkFrom(src, root).value.complete <==> Inspectable(src, root)
  {
    hide *;
    if Inspectable(src, root) {
      InspectableIsComplete(src, root);
    } else if WalkFrom(src, root).Some? && WalkFrom(src, root).value.complete {
      CompleteIsInspectable(src, root);
    }
  }
}
