/** The registry's fault-tolerant lineage walk, as a function of its state, and the trace it emits. */
module Lineage {
  import opened Products
  import opened Compatibility
  import Order

  const MAX_TRACE_PRODUCTS := 256
  const MAX_TRACE_EDGES := 1024
  const MAX_TRACE_DEPTH := 64
  const MAX_TRACE_METADATA := 0x10_0000

  /** The aggregate observation of an inspected product. */
  datatype Health = ReadyNow | NotReadyNow | StaleObservation | NotObserved | FeatureDisabled

  /** Node and edge states of a trace; the constructors after Deleting, except Resolved, are failures. */
  datatype State =
    | Observed(health: Health)
    | Deleting
    | Missing
    | Unavailable
    | Invalid
    | IdentityMismatch
    | Timeout
    | MetadataLimit
    | ProductLimit
    | DepthLimit
    | EdgeLimit
    | CrossNamespace
    | Cycle
    | Resolved

  datatype Contracted = Compatible | OutputMissing | Incompatible | NotEvaluated

  datatype Node = Node(key: Key, state: State, version: string)

  datatype Edge = Edge(
    from: Key,
    to: Key,
    input: string,
    output: string,
    depth: nat,
    state: State,
    compatibility: Contracted,
    requirement: Option<Contract>)

  datatype Trace = Trace(root: Key, complete: bool, issues: seq<State>, nodes: seq<Node>, edges: seq<Edge>)

  predicate ObservedState(s: State)
  {
    s.Observed? || s.Deleting?
  }

  predicate FailureState(s: State)
  {
    !ObservedState(s) && s != Resolved
  }

  // ---------------------------------------------------------------- the environment

  /** The answer of one read: absent, failed, or an object with the size of its public descriptor, if encodable. */
  datatype Answer = NotFound | Failed | Found(product: Product, encoded: Option<nat>, health: Health)

  /**
   What one walk meets: the answer for every key (absent keys are not found), the context check after which
   the deadline has passed, and the compatibility evaluator it was given.
   */
  datatype Source = Source(answers: map<Key, Answer>, deadline: Option<nat>, evaluate: (Input, Product) -> Reason)

  predicate Late(src: Source, clock: nat)
  {
    src.deadline.Some? && src.deadline.value <= clock
  }

  function AnswerTo(src: Source, key: Key): Answer
  {
    if key in src.answers then src.answers[key] else NotFound
  }

  predicate DistinctNames(names: seq<string>)
  {
    forall i, j :: 0 <= i < j < |names| ==> names[i] != names[j]
  }

  function InputNames(inputs: seq<Input>): (names: seq<string>)
    ensures |names| == |inputs| && forall i :: 0 <= i < |names| ==> names[i] == inputs[i].name
  {
    seq(|inputs|, i requires 0 <= i < |inputs| => inputs[i].name)
  }

  function OutputNames(outputs: seq<Output>): seq<string>
  {
    seq(|outputs|, i requires 0 <= i < |outputs| => outputs[i].name)
  }

  /** Port names must be unambiguous before a product takes part in the walk. */
  predicate DistinctPorts(p: Product)
  {
    DistinctNames(InputNames(p.inputs)) && DistinctNames(OutputNames(p.outputs))
  }

  function NameKey(input: Input): seq<string>
  {
    [input.name]
  }

  function SortedInputs(p: Product): seq<Input>
  {
    Order.Sort(p.inputs, NameKey)
  }

  // ---------------------------------------------------------------- the walk

  datatype Walked = Walked(
    products: map<Key, Product>,
    nodes: map<Key, Node>,
    visiting: set<Key>,
    visited: set<Key>,
    heights: map<Key, nat>,
    issues: set<State>,
    complete: bool,
    retained: nat,
    edges: seq<Edge>,
    clock: nat)

  const Start := Walked(map[], map[], {}, {}, map[], {}, true, 0, [], 0)

  function Height(g: Walked, k: Key): nat
  {
    if k in g.heights then g.heights[k] else 0
  }

  function Max(a: nat, b: nat): nat
  {
    if a >= b then a else b
  }

  function Remaining(depth: nat): nat
  {
    if depth < MAX_TRACE_DEPTH then MAX_TRACE_DEPTH - depth else 0
  }

  /** Retain a gap without stopping the walk. */
  function Incomplete(g: Walked, issue: State): Walked
  {
    g.(complete := false, issues := g.issues + {issue})
  }

  function Tick(g: Walked): Walked
  {
    g.(clock := g.clock + 1)
  }

  /** The node recorded for a fresh answer that arrived in time. */
  function Classify(src: Source, g: Walked, key: Key): State
  {
    match AnswerTo(src, key)
    case NotFound => Missing
    case Failed => Unavailable
    case Found(p, encoded, health) =>
      if p.key != key then IdentityMismatch
      else if encoded.None? || !DistinctPorts(p) then Invalid
      else if g.retained + encoded.value > MAX_TRACE_METADATA then MetadataLimit
      else if p.deleting then Deleting
      else Observed(health)
  }

  /** Record a fresh read, successful or not. */
  function Record(src: Source, g: Walked, key: Key): Walked
  {
    var late := Late(src, g.clock);
    var state := if late then Timeout else Classify(src, g, key);
    var now := Tick(g);
    if ObservedState(state) then
      var found := src.answers[key];
      now.(nodes := g.nodes[key := Node(key, state, found.product.version)],
           products := g.products[key := found.product],
           retained := g.retained + found.encoded.value)
    else
      Incomplete(now.(nodes := g.nodes[key := Node(key, state, "")]), state)
  }

  /** Read a product at most once; failures are cached like successes. */
  function Read(src: Source, g: Walked, key: Key): (Walked, State)
  {
    if key in g.nodes then (g, g.nodes[key].state)
    else if Late(src, g.clock) then (Incomplete(Tick(g), Timeout), Timeout)
    else if |g.nodes| >= MAX_TRACE_PRODUCTS then (Incomplete(Tick(g), ProductLimit), ProductLimit)
    else
      var h := Record(src, Tick(g), key);
      (h, h.nodes[key].state)
  }

  function Visit(src: Source, g: Walked, p: Product, depth: nat): (Walked, State)
    decreases Remaining(depth), 2, 0
  {
    var now := Tick(g);
    if Late(src, g.clock) then (Incomplete(now, Timeout), Timeout)
    else if p.key in g.visiting then (Incomplete(now, Cycle), Cycle)
    else if depth >= MAX_TRACE_DEPTH || (p.key in g.visited && depth + Height(g, p.key) >= MAX_TRACE_DEPTH) then
      (Incomplete(now, DepthLimit), DepthLimit)
    else if p.key in g.visited then (now, Resolved)
    else
      var done := VisitInputs(src, now.(visiting := g.visiting + {p.key}), p, depth, SortedInputs(p));
      (done.(visiting := done.visiting - {p.key}, visited := done.visited + {p.key}), Resolved)
  }

  /** The loop over the remaining inputs; two budgets end it early. */
  function VisitInputs(src: Source, g: Walked, p: Product, depth: nat, inputs: seq<Input>): Walked
    requires depth < MAX_TRACE_DEPTH
    decreases Remaining(depth), 1, |inputs|
  {
    if inputs == [] then g
    else if |g.edges| >= MAX_TRACE_EDGES then Incomplete(g, EdgeLimit)
    else if Late(src, g.clock) then Incomplete(Tick(g), Timeout)
    else VisitInputs(src, Inspect(src, Tick(g), p, depth, inputs[0]), p, depth, inputs[1..])
  }

  function NewEdge(p: Product, depth: nat, input: Input): Edge
  {
    Edge(p.key, Target(p.key, input), input.name, input.ref.output, depth + 1, Resolved, NotEvaluated, input.contract)
  }

  function Evaluated(reason: Reason): Contracted
  {
    match reason
    case NoReason => Compatible
    case OutputNotFound => OutputMissing
    case ContractIncompatible => Incompatible
    case _ => NotEvaluated
  }

  /** One iteration: emit the edge, inspect its producer, then rewrite the edge with what was learned. */
  function Inspect(src: Source, g: Walked, p: Product, depth: nat, input: Input): Walked
    requires depth < MAX_TRACE_DEPTH
    decreases Remaining(depth), 0, 0
  {
    var edge := NewEdge(p, depth, input);
    var emitted := g.(edges := g.edges + [edge]);
    if edge.to.ns != p.key.ns then
      Incomplete(Rewrite(emitted, |g.edges|, edge.(state := CrossNamespace)), CrossNamespace)
    else if depth + 1 >= MAX_TRACE_DEPTH then
      Incomplete(Rewrite(emitted, |g.edges|, edge.(state := DepthLimit)), DepthLimit)
    else
      var (found, state) := Read(src, emitted, edge.to);
      if edge.to !in found.products then Rewrite(found, |g.edges|, edge.(state := state))
      else
        var contracted := Evaluated(src.evaluate(input, found.products[edge.to]));
        if contracted == NotEvaluated then
          Rewrite(Raise(Incomplete(found, Unavailable), p.key, edge.to), |g.edges|, edge.(state := Unavailable))
        else
          var (below, reached) := Visit(src, found, found.products[edge.to], depth + 1);
          Rewrite(Raise(below, p.key, edge.to), |g.edges|, edge.(state := reached, compatibility := contracted))
  }

  function Raise(g: Walked, consumer: Key, producer: Key): Walked
  {
    g.(heights := g.heights[consumer := Max(Height(g, consumer), 1 + Height(g, producer))])
  }

  function Rewrite(g: Walked, index: nat, edge: Edge): Walked
  {
    if index < |g.edges| then g.(edges := g.edges[index := edge]) else g
  }

  /** The walk of one root, when the root itself can be read. */
  function WalkFrom(src: Source, root: Key): Option<Walked>
  {
    var (found, _) := Read(src, Start, root);
    if root !in found.products then None else Some(Visit(src, found, found.products[root], 0).0)
  }

  ghost predicate Distinct<T>(s: seq<T>)
  {
    forall i, j :: 0 <= i < j < |s| ==> s[i] != s[j]
  }

  /** A trace presents a walk when it lists its issues, nodes and edges, each once, in any order. */
  ghost predicate Presents(t: Trace, root: Key, g: Walked)
  {
    && t.root == root
    && t.complete == g.complete
    && Distinct(t.issues)
    && (forall x :: x in t.issues <==> x in g.issues)
    && Distinct(t.nodes)
    && (forall n :: n in t.nodes <==> n.key in g.nodes && g.nodes[n.key] == n)
    && multiset(t.edges) == multiset(g.edges)
  }
}
