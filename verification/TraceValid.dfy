/** The browser's admission of a lineage trace: exactly the sound traces are accepted. */
module TraceValid {
  import opened Products
  import opened Digraph
  import opened Lineage
  import opened TraceSpec
  import opened TraceCheck
  import opened Bits
  import TraceOrder
  import LineageFacts
  import LineageAccepted
  import Versions

  /** Every cycle edge closes a resolved return path. */
  method CyclesClose(t: Trace, ghost observed: set<Key>, upstream: map<Key, seq<Key>>) returns (ok: bool)
    requires forall e {:trigger e in t.edges} :: e in t.edges ==> ShapedEdge(observed, e)
    requires UpstreamTable(t.edges, observed, upstream)
    ensures ok <==> forall e {:trigger e in t.edges} :: e in t.edges && e.state == Cycle ==>
              Reaches(ResolvedGraph(t.edges), e.to, e.from)
  {
    UpstreamAdjacent(t, observed, upstream);
    hide *;
    var i := 0;
    while i < |t.edges|
      invariant i <= |t.edges|
      invariant forall j :: 0 <= j < i && t.edges[j].state == Cycle ==>
                  Reaches(ResolvedGraph(t.edges), t.edges[j].to, t.edges[j].from)
    {
      var e := t.edges[i];
      if e.state == Cycle {
        var closes := ReturnPath(upstream, ResolvedGraph(t.edges), e.to, e.from);
        if !closes {
          assert e in t.edges;
          return false;
        }
      }
      i := i + 1;
    }
    ok := true;
  }

  /** One edge's depth against the computed path lengths. */
  predicate DepthMatches(root: Key, depths: map<Key, nat>, e: Edge)
    requires e.from in depths && e.depth >= 1
  {
    && (e.from != root || e.depth == 1)
    && (e.depth != MAX_TRACE_DEPTH || e.state == DepthLimit || e.state == CrossNamespace)
    && And(depths[e.from], Pow2(e.depth - 1)) != 0
  }

  lemma {:induction false} DepthMatchesSound(t: Trace, observed: set<Key>, depths: map<Key, nat>, e: Edge)
    requires ShapedEdge(observed, e) && e.from in depths
    requires forall b: nat :: Bit(depths[e.from], b) <==> b < 64 && Walk(ResolvedGraph(t.edges), t.root, e.from, b)
    ensures DepthMatches(t.root, depths, e) <==> DepthSound(t, e)
  {
    TestBit(depths[e.from], e.depth - 1);
    hide And, Bit, Walk, Pow2;
  }

  method DepthsMatch(t: Trace, ghost observed: set<Key>, depths: map<Key, nat>) returns (ok: bool)
    requires forall e {:trigger e in t.edges} :: e in t.edges ==> ShapedEdge(observed, e)
    requires depths.Keys == observed
    requires forall k, b: nat {:trigger Bit(depths[k], b)} :: k in observed ==>
               (Bit(depths[k], b) <==> b < 64 && Walk(ResolvedGraph(t.edges), t.root, k, b))
    ensures ok <==> forall e {:trigger e in t.edges} :: e in t.edges ==> DepthSound(t, e)
  {
    hide Walk, Bit, DepthMatches, DepthSound;
    var i := 0;
    while i < |t.edges|
      invariant i <= |t.edges|
      invariant forall j :: 0 <= j < i ==> DepthSound(t, t.edges[j])
    {
      var e := t.edges[i];
      assert e in t.edges && ShapedEdge(observed, e);
      DepthMatchesSound(t, observed, depths, e);
      if !DepthMatches(t.root, depths, e) {
        return false;
      }
      i := i + 1;
    }
    ok := true;
  }

  /** Everything reached along references is a listed key, so equal sizes mean all keys are reached. */
  lemma {:induction false} ReachedAll(t: Trace, keys: set<Key>, found: set<Key>)
    requires t.root in keys && forall k :: k in found <==> Reaches(References(t.edges, keys), t.root, k)
    ensures |found| == |keys| <==> forall k :: k in keys ==> Reaches(References(t.edges, keys), t.root, k)
  {
    forall k | k in found
      ensures k in keys
    {
      var n: nat :| Walk(References(t.edges, keys), t.root, k, n);
      forall x, y {:trigger y in Succ(References(t.edges, keys), x)} | x in keys &&
        y in Succ(References(t.edges, keys), x)
        ensures y in keys
      {
        ReferenceSucc(t.edges, keys, x, y);
      }
      StaysInside(References(t.edges, keys), keys, t.root, k, n);
    }
    SubsetCount(found, keys);
    if |found| == |keys| && keys - found != {} {
      var k :| k in keys - found;
      SubsetCount(found + {k}, keys);
    }
    if forall k :: k in keys ==> Reaches(References(t.edges, keys), t.root, k) {
      assert found == keys;
    }
  }

  /** The graph check of the browser accepts exactly the sound graphs. */
  method ValidGraph(t: Trace, observed: seq<Key>, keys: set<Key>) returns (ok: bool)
    requires forall i, j :: 0 <= i < j < |observed| ==> observed[i] != observed[j]
    requires Shaped(t, (set k | k in observed), keys)
    ensures ok <==> GraphSound(t)
  {
    ghost var all := set k | k in observed;
    var tables, references, upstream, incoming := Tabulate(t, (set k | k in observed), keys);
    ShapedEdges(t, all, keys);
    if !tables {
      return false;
    }
    IncomingKeys(t.edges, all, incoming);
    ReferencesAdjacent(t, all, keys, references);
    assert t.root in references && keys == Keys(t) by { RootListed(t, all, keys, references); }
    hide Shaped, ReferenceTable, UpstreamTable, IncomingTable, Adjacent, ShapedEdge, Keys, Acyclic, Walk, ResolvedGraph,
         References, Reaches;
    var found := Reach(references, References(t.edges, keys), t.root);
    ReachedAll(t, keys, found);
    if |found| != |keys| {
      return false;
    }
    var closed := CyclesClose(t, all, upstream);
    if !closed {
      return false;
    }
    var acyclic, depths := TraceOrder.Order(t, observed, upstream, incoming);
    if !acyclic {
      return false;
    }
    ok := DepthsMatch(t, all, depths);
  }

  lemma {:induction false} ShapedEdges(t: Trace, observed: set<Key>, keys: set<Key>)
    requires Shaped(t, observed, keys)
    ensures t.root in observed && t.root in keys
    ensures forall e {:trigger e in t.edges} :: e in t.edges ==> ShapedEdge(observed, e)
  {
  }

  lemma {:induction false} IncomingKeys(edges: seq<Edge>, observed: set<Key>, incoming: map<Key, nat>)
    requires IncomingTable(edges, observed, {}, incoming)
    ensures incoming.Keys == observed
  {
  }

  lemma {:induction false} RootListed(t: Trace, observed: set<Key>, keys: set<Key>, references: map<Key, seq<Key>>)
    requires Shaped(t, observed, keys) && ReferenceTable(t.edges, keys, references)
    ensures t.root in references && keys == Keys(t)
  {
  }

  // ---------------------------------------------------------------- the whole trace

  predicate HeaderOk(t: Trace, root: Key)
  {
    && t.root == root
    && |t.nodes| <= MAX_TRACE_PRODUCTS && |t.edges| <= MAX_TRACE_EDGES && |t.issues| <= 11
    && !(t.complete && t.issues != []) && !(!t.complete && t.issues == [])
    && (forall i, j :: 0 <= i < j < |t.issues| ==> t.issues[i] != t.issues[j])
    && (forall x :: x in t.issues ==> FailureState(x))
  }

  /** The node table built so far: every node under its key, observed keys in order. */
  ghost predicate NodeTable(nodes: seq<Node>, table: map<Key, Node>, observed: seq<Key>)
  {
    && (forall i, j :: 0 <= i < j < |nodes| ==> nodes[i].key != nodes[j].key)
    && (forall n {:trigger n in nodes} :: n in nodes ==> n.key in table && table[n.key] == n)
    && (forall k {:trigger k in table} :: k in table ==> table[k] in nodes && table[k].key == k)
    && (forall i, j :: 0 <= i < j < |observed| ==> observed[i] != observed[j])
    && (forall k {:trigger k in observed} :: k in observed <==> k in table && ObservedState(table[k].state))
  }

  lemma {:induction false} NodeTableStep(nodes: seq<Node>, n: Node, table: map<Key, Node>, observed: seq<Key>)
    requires NodeTable(nodes, table, observed) && n.key !in table
    ensures NodeTable(nodes + [n], table[n.key := n], if ObservedState(n.state) then observed + [n.key] else observed)
  {
    assert n.key !in observed;
    forall i, j | 0 <= i < j < |nodes + [n]|
      ensures (nodes + [n])[i].key != (nodes + [n])[j].key
    {
      assert (nodes + [n])[i] in nodes;
    }
  }

  lemma {:induction false} RepeatedKey(all: seq<Node>, i: nat, table: map<Key, Node>, observed: seq<Key>)
    requires i < |all| && NodeTable(all[..i], table, observed) && all[i].key in table
    ensures exists j :: 0 <= j < i && all[j].key == all[i].key
  {
    var j :| 0 <= j < i && all[..i][j] == table[all[i].key];
  }

  /** The loop over the nodes. */
  method ReadNodes(t: Trace, root: Key) returns (ok: bool, table: map<Key, Node>, observed: seq<Key>)
    ensures ok <==> NodesSound(t, root)
    ensures ok ==> NodeTable(t.nodes, table, observed)
  {
    table, observed := map[], [];
    var i := 0;
    hide NodeTable, NodeSound;
    assert NodeTable([], table, observed) by { EmptyTable(); }
    assert t.nodes[..0] == [];
    while i < |t.nodes|
      invariant i <= |t.nodes|
      invariant NodeTable(t.nodes[..i], table, observed)
      invariant forall j :: 0 <= j < i ==> NodeSound(t, root, t.nodes[j])
    {
      var n := t.nodes[i];
      assert n in t.nodes && t.nodes[..i + 1] == t.nodes[..i] + [n];
      if n.key in table {
        RepeatedKey(t.nodes, i, table, observed);
        return false, table, observed;
      }
      if !NodeSound(t, root, n) {
        return false, table, observed;
      }
      NodeTableStep(t.nodes[..i], n, table, observed);
      table := table[n.key := n];
      if ObservedState(n.state) {
        observed := observed + [n.key];
      }
      i := i + 1;
    }
    assert t.nodes[..i] == t.nodes;
    TableDistinct(t.nodes, table, observed);
    ok := true;
  }

  lemma {:induction false} EmptyTable()
    ensures NodeTable([], map[], [])
  {
  }

  lemma {:induction false} TableDistinct(nodes: seq<Node>, table: map<Key, Node>, observed: seq<Key>)
    requires NodeTable(nodes, table, observed)
    ensures forall i, j :: 0 <= i < j < |nodes| ==> nodes[i].key != nodes[j].key
  {
  }

  /** One edge against the node table and the verdict. */
  predicate EdgeOk(t: Trace, root: Key, table: map<Key, Node>, e: Edge)
  {
    var listed := e.to in table;
    var observed := listed && ObservedState(table[e.to].state);
    && e.from in table && ObservedState(table[e.from].state)
    && 1 <= e.depth <= MAX_TRACE_DEPTH
    && (if e.state == Resolved then observed && e.compatibility != NotEvaluated
        else FailureState(e.state) && !t.complete && e.state in t.issues)
    && (e.state == CrossNamespace <==> e.to.ns != root.ns)
    && (e.state in ReadFailures + {CrossNamespace} ==> e.compatibility == NotEvaluated)
    && (e.state in CachedFailures ==> listed && table[e.to].state == e.state)
    && (e.state in ReadFailures + {Timeout} && listed && !observed ==> table[e.to].state == e.state)
    && (e.compatibility == Incompatible ==> e.requirement.Some?)
    && (e.compatibility == Compatible && e.requirement.Some? && listed && table[e.to].version != "" ==>
          Versions.BrowserCompatible(table[e.to].version, e.requirement.value.minimum))
  }

  lemma {:induction false} EdgeOkSound(t: Trace, root: Key, table: map<Key, Node>, observed: seq<Key>, e: Edge)
    requires NodeTable(t.nodes, table, observed)
    ensures EdgeOk(t, root, table, e) <==> EdgeSound(t, root, e)
  {
    hide Versions.BrowserCompatible;
    TableKeys(t, table, observed);
    forall n | n in t.nodes && n.key == e.to
      ensures e.to in table && table[e.to] == n
    {
    }
    if e.to in table {
      assert table[e.to] in t.nodes;
    }
    hide NodeTable, ObservedKeys;
  }

  lemma {:induction false} TableKeys(t: Trace, table: map<Key, Node>, observed: seq<Key>)
    requires NodeTable(t.nodes, table, observed)
    ensures Keys(t) == table.Keys
    ensures ObservedKeys(t) == set k | k in observed
    ensures forall k :: k in ObservedKeys(t) <==> k in table && ObservedState(table[k].state)
  {
    forall k | k in table
      ensures k in Keys(t)
    {
      assert table[k] in t.nodes;
    }
    forall k
      ensures k in ObservedKeys(t) <==> k in table && ObservedState(table[k].state)
    {
      if k in table {
        assert table[k] in t.nodes;
      }
    }
    forall k | k in observed
      ensures k in ObservedKeys(t)
    {
    }
    forall k | k in ObservedKeys(t)
      ensures k in observed
    {
    }
  }

  /** The loop over the edges: each is sound, and no consumer names an input twice. */
  method ReadEdges(t: Trace, root: Key, table: map<Key, Node>, ghost observed: seq<Key>) returns (ok: bool)
    requires NodeTable(t.nodes, table, observed)
    ensures ok <==> EdgesSound(t, root)
  {
    hide NodeTable, EdgeSound, EdgeOk;
    var inputs: set<(Key, string)> := {};
    var i := 0;
    while i < |t.edges|
      invariant i <= |t.edges|
      invariant inputs == set j | 0 <= j < i :: (t.edges[j].from, t.edges[j].input)
      invariant forall j :: 0 <= j < i ==> EdgeSound(t, root, t.edges[j])
      invariant forall j, k :: 0 <= j < k < i ==>
                  t.edges[j].from != t.edges[k].from || t.edges[j].input != t.edges[k].input
    {
      var e := t.edges[i];
      assert e in t.edges;
      EdgeOkSound(t, root, table, observed, e);
      if (e.from, e.input) in inputs {
        var j :| 0 <= j < i && (t.edges[j].from, t.edges[j].input) == (e.from, e.input);
        return false;
      }
      if !EdgeOk(t, root, table, e) {
        return false;
      }
      inputs := inputs + {(e.from, e.input)};
      i := i + 1;
    }
    ok := true;
  }

  /** The browser admits exactly the sound traces. */
  method ValidTrace(t: Trace, root: Key) returns (ok: bool)
    ensures ok <==> TraceSound(t, root)
  {
    hide NodesSound, EdgesSound, GraphSound, NodeTable, Keys;
    if !HeaderOk(t, root) {
      return false;
    }
    var nodes, table, observed := ReadNodes(t, root);
    if !nodes {
      return false;
    }
    TableKeys(t, table, observed);
    ObservedDistinct(t.nodes, table, observed);
    hide ObservedKeys;
    if root !in observed {
      return false;
    }
    var edges := ReadEdges(t, root, table, observed);
    if !edges {
      return false;
    }
    EdgesShape(t, root, (set k | k in observed), table.Keys);
    ok := ValidGraph(t, observed, table.Keys);
  }

  lemma {:induction false} ObservedDistinct(nodes: seq<Node>, table: map<Key, Node>, observed: seq<Key>)
    requires NodeTable(nodes, table, observed)
    ensures forall i, j :: 0 <= i < j < |observed| ==> observed[i] != observed[j]
  {
  }

  lemma {:induction false} EdgesShape(t: Trace, root: Key, observed: set<Key>, keys: set<Key>)
    requires EdgesSound(t, root) && observed == ObservedKeys(t) && keys == Keys(t)
    requires t.root == root && root in observed
    ensures Shaped(t, observed, keys)
  {
    forall e {:trigger e in t.edges} | e in t.edges
      ensures ShapedEdge(observed, e)
    {
      assert EdgeSound(t, root, e);
    }
  }

  /** Whatever the registry walk emits, the browser admits. */
  method AdmitsEveryWalk(src: Source, root: Key, t: Trace) returns (ok: bool)
    requires LineageFacts.Canonical(src)
    requires WalkFrom(src, root).Some? && Presents(t, root, WalkFrom(src, root).value)
    ensures ok
  {
    LineageAccepted.EveryTraceIsSound(src, root, t);
    ok := ValidTrace(t, root);
  }
}
