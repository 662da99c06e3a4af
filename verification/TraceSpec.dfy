/** What a public lineage trace has to satisfy, stated over its nodes and edges alone. */
module TraceSpec {
  import opened Products
  import opened Digraph
  import opened Lineage
  import Versions

  ghost function Froms(edges: seq<Edge>): set<Key>
  {
    set e | e in edges :: e.from
  }

  /** The resolved edges of a trace as a graph. */
  ghost function ResolvedGraph(edges: seq<Edge>): map<Key, set<Key>>
  {
    map k | k in Froms(edges) :: set e | e in edges && e.from == k && e.state == Resolved :: e.to
  }

  /** The edges of a trace that lead to a listed node, whatever their state. */
  ghost function References(edges: seq<Edge>, keys: set<Key>): map<Key, set<Key>>
  {
    map k | k in Froms(edges) :: set e | e in edges && e.from == k && e.to in keys :: e.to
  }

  ghost predicate ResolvedLink(edges: seq<Edge>, a: Key, b: Key)
  {
    exists e :: e in edges && e.from == a && e.to == b && e.state == Resolved
  }

  ghost predicate ReferenceLink(edges: seq<Edge>, keys: set<Key>, a: Key, b: Key)
  {
    b in keys && exists e :: e in edges && e.from == a && e.to == b
  }

  lemma {:induction false} ResolvedSucc(edges: seq<Edge>, a: Key, b: Key)
    ensures b in Succ(ResolvedGraph(edges), a) <==> ResolvedLink(edges, a, b)
  {
  }

  lemma {:induction false} ReferenceSucc(edges: seq<Edge>, keys: set<Key>, a: Key, b: Key)
    ensures b in Succ(References(edges, keys), a) <==> ReferenceLink(edges, keys, a, b)
  {
  }

  // ---------------------------------------------------------------- the parts of a valid trace

  ghost function Keys(t: Trace): set<Key>
  {
    set n | n in t.nodes :: n.key
  }

  ghost function ObservedKeys(t: Trace): set<Key>
  {
    set n | n in t.nodes && ObservedState(n.state) :: n.key
  }

  /** Bounds, and a verdict that agrees with the listed issues. */
  ghost predicate HeaderSound(t: Trace, root: Key)
  {
    && t.root == root
    && |t.nodes| <= MAX_TRACE_PRODUCTS && |t.edges| <= MAX_TRACE_EDGES && |t.issues| <= 11
    && (t.complete <==> t.issues == [])
    && Distinct(t.issues)
    && (forall x :: x in t.issues ==> FailureState(x))
  }

  predicate NodeSound(t: Trace, root: Key, n: Node)
  {
    && n.key.ns == root.ns
    && n.state != Resolved
    && (!ObservedState(n.state) ==> !t.complete && n.state in t.issues && n.version == "")
  }

  ghost predicate NodesSound(t: Trace, root: Key)
  {
    && (forall i, j :: 0 <= i < j < |t.nodes| ==> t.nodes[i].key != t.nodes[j].key)
    && (forall n :: n in t.nodes ==> NodeSound(t, root, n))
  }

  const ReadFailures: set<State> := {Missing, Unavailable, Invalid, IdentityMismatch, MetadataLimit, ProductLimit}
  const CachedFailures: set<State> := {Missing, Invalid, IdentityMismatch, MetadataLimit}

  /** An edge agrees with the verdict, the namespace boundary, and what is listed about its target. */
  ghost predicate EdgeSound(t: Trace, root: Key, e: Edge)
  {
    && e.from in ObservedKeys(t)
    && 1 <= e.depth <= MAX_TRACE_DEPTH
    && (if e.state == Resolved then e.to in ObservedKeys(t) && e.compatibility != NotEvaluated
        else FailureState(e.state) && !t.complete && e.state in t.issues)
    && (e.state == CrossNamespace <==> e.to.ns != root.ns)
    && (e.state in ReadFailures + {CrossNamespace} ==> e.compatibility == NotEvaluated)
    && (e.state in CachedFailures ==> exists n :: n in t.nodes && n.key == e.to && n.state == e.state)
    && (e.state in ReadFailures + {Timeout} ==>
          forall n :: n in t.nodes && n.key == e.to && !ObservedState(n.state) ==> n.state == e.state)
    && (e.compatibility == Incompatible ==> e.requirement.Some?)
    && (e.compatibility == Compatible && e.requirement.Some? ==>
          forall n :: n in t.nodes && n.key == e.to && n.version != "" ==>
            Versions.BrowserCompatible(n.version, e.requirement.value.minimum))
  }

  ghost predicate EdgesSound(t: Trace, root: Key)
  {
    && (forall i, j :: 0 <= i < j < |t.edges| ==>
          t.edges[i].from != t.edges[j].from || t.edges[i].input != t.edges[j].input)
    && (forall e :: e in t.edges ==> EdgeSound(t, root, e))
  }

  /**
   The graph of a trace: inputs of one consumer share a depth, every node is connected to the root, cycle
   verdicts close a resolved path, resolved edges form no cycle, and every depth is that of a resolved path.
   */
  ghost predicate GraphSound(t: Trace)
  {
    && (forall e, f :: e in t.edges && f in t.edges && e.from == f.from ==> e.depth == f.depth)
    && (forall k :: k in Keys(t) ==> Reaches(References(t.edges, Keys(t)), t.root, k))
    && (forall e :: e in t.edges && e.state == Cycle ==> Reaches(ResolvedGraph(t.edges), e.to, e.from))
    && Acyclic(ResolvedGraph(t.edges))
    && (forall e :: e in t.edges ==> DepthSound(t, e))
  }

  ghost predicate DepthSound(t: Trace, e: Edge)
  {
    && (e.from == t.root ==> e.depth == 1)
    && (e.depth == MAX_TRACE_DEPTH ==> e.state == DepthLimit || e.state == CrossNamespace)
    && e.depth >= 1 && Walk(ResolvedGraph(t.edges), t.root, e.from, e.depth - 1)
  }

  ghost predicate TraceSound(t: Trace, root: Key)
  {
    && HeaderSound(t, root) && NodesSound(t, root) && root in ObservedKeys(t)
    && EdgesSound(t, root) && GraphSound(t)
  }
}
