/** The controller's verdict and the registry's verdict on one graph agree. */
module Agreement {
  import opened Products
  import opened Compatibility
  import opened Digraph
  import L = Lineage
  import opened LineageFacts
  import opened LineageAccount
  import opened LineageDeclared
  import opened LineageComplete
  import opened Composition
  import CompositionTheorems
  import Sums

  /** What only the registry asks for: everything reachable can be published, within the metadata budget. */
  ghost predicate Presentable(src: L.Source, root: Key)
  {
    && (forall k :: Reaches(Links(src), root, k) ==> Publishable(src, k))
    && Reached(src, root) <= Sizes(src).Keys
    && Sums.Total(Sizes(src), Reached(src, root)) <= L.MAX_TRACE_METADATA
  }

  /** Along matching inputs the namespace never changes. */
  lemma {:induction false} NamespaceKept(s: Store, root: Key, k: Key, x: Key, n: nat)
    requires WellKeyed(s) && Acceptable(s, root) && Reachable(s, root, k) && Walk(Adjacency(s), k, x, n)
    ensures x.ns == k.ns
    decreases n
  {
    hide Acceptable, Adjacency, Succ, WellKeyed;
    if n > 0 {
      var m :| m in Succ(Adjacency(s), k) && Walk(Adjacency(s), m, x, n - 1);
      NamespaceStep(s, root, k, m);
      NamespaceKept(s, root, m, x, n - 1);
    }
  }

  lemma {:induction false} NamespaceStep(s: Store, root: Key, k: Key, m: Key)
    requires WellKeyed(s) && Acceptable(s, root) && Reachable(s, root, k) && m in Succ(Adjacency(s), k)
    ensures m.ns == k.ns && Reachable(s, root, m)
  {
    ReachExtends(Adjacency(s), root, k, m);
    CompositionTheorems.EdgeIsInput(s, k, m);
    assert InputsMatch(s, s[k]);
    hide Acceptable, Targets, Adjacency, Reachable, Reaches;
    var i :| 0 <= i < |s[k].inputs| && m == Target(s[k].key, s[k].inputs[i]);
    assert Matches(s, k, s[k].inputs[i]);
  }

  lemma {:induction false} ShownKeyed(src: L.Source)
    ensures WellKeyed(Shown(src))
  {
  }

  lemma {:induction false} AcceptableIsInspectable(src: L.Source, root: Key)
    requires Acceptable(Shown(src), root) && Presentable(src, root)
    ensures Inspectable(src, root)
  {
    var s := Shown(src);
    ShownKeyed(src);
    forall k | Reaches(Links(src), root, k)
      ensures Publishable(src, k) && k.ns == root.ns
    {
      hide Acceptable, Publishable;
      ReachesItself(Adjacency(s), root);
      var n: nat :| Walk(Adjacency(s), root, k, n);
      NamespaceKept(s, root, root, k, n);
    }
    hide Shown, Sizes, Publishable;
    assert Reached(src, root) <= Weights(s).Keys;
  }

  /** Distinct port names: an input is known by its name. */
  lemma {:induction false} KnownByName(p: Product, a: Input, b: Input)
    requires L.DistinctPorts(p) && a in p.inputs && b in p.inputs && a.name == b.name
    ensures a == b
  {
    var i :| 0 <= i < |p.inputs| && p.inputs[i] == a;
    var j :| 0 <= j < |p.inputs| && p.inputs[j] == b;
    var names := L.InputNames(p.inputs);
    assert names[i] == names[j];
    assert !(i < j) && !(j < i);
  }

  lemma {:induction false} VerdictIs(src: L.Source, k: Key, input: Input, e: L.Edge)
    requires Canonical(src) && k in Shown(src) && L.DistinctPorts(Shown(src)[k]) && input in Shown(src)[k].inputs
    requires Declared(src, Shown(src), e) && e.compatibility != L.NotEvaluated && e.from == k && e.input == input.name
    ensures Target(k, input) == e.to && e.to in Shown(src)
    ensures e.compatibility == L.Compatible <==> InputCompatibility(input, Shown(src)[e.to]) == NoReason
  {
    hide Shown, InputCompatibility, L.DistinctPorts, Target;
    var p := Shown(src)[k];
    var other :| other in p.inputs && Says(src, Shown(src), e, other);
    KnownByName(p, input, other);
    assert src.evaluate(input, Shown(src)[e.to]) == InputCompatibility(input, Shown(src)[e.to]);
  }

  /** In an acceptable graph every edge the registry emits is compatible. */
  lemma {:induction false} EdgesCompatible(src: L.Source, root: Key, edges: seq<L.Edge>, e: L.Edge)
    requires Canonical(src) && Acceptable(Shown(src), root) && AllPublishable(src, root)
    requires EmitsAll(src, root, edges) && e in edges
    ensures e.compatibility == L.Compatible
  {
    var s := Shown(src);
    assert e.from in Reached(src, root) && Declared(src, s, e) && e.compatibility != L.NotEvaluated;
    ReachedIs(src, root, e.from);
    assert Publishable(src, e.from);
    assert s[e.from].key == e.from;
    assert InputsMatch(s, s[e.from]);
    hide EmitsAll, Canonical, Acceptable, AllPublishable, Shown, Reached, InputCompatibility, L.DistinctPorts;
    var input :| input in s[e.from].inputs && Says(src, s, e, input);
    var i :| 0 <= i < |s[e.from].inputs| && s[e.from].inputs[i] == input;
    assert Matches(s, e.from, s[e.from].inputs[i]);
    VerdictIs(src, e.from, input, e);
  }

  lemma {:induction false} CompatibleMatches(src: L.Source, root: Key, edges: seq<L.Edge>, k: Key)
    requires Canonical(src) && AllPublishable(src, root) && EmitsAll(src, root, edges)
    requires forall e :: e in edges ==> e.compatibility == L.Compatible
    requires Reaches(Links(src), root, k)
    ensures k in Shown(src) && InputsMatch(Shown(src), Shown(src)[k])
  {
    var s := Shown(src);
    ReachedIs(src, root, k);
    assert Publishable(src, k);
    var p := s[k];
    assert p.key == k;
    forall i | 0 <= i < |p.inputs|
      ensures Matches(s, p.key, p.inputs[i])
    {
      hide Shown, Canonical, InputCompatibility, L.DistinctPorts, Declared, Target, Links, Reached, AllPublishable;
      assert ShownOnce(edges, k, p.inputs[i]);
      var j :| 0 <= j < |edges| && edges[j].state == L.Resolved && ShowsAt(edges, j, k, p.inputs[i]);
      assert edges[j] in edges;
      VerdictIs(src, k, p.inputs[i], edges[j]);
      InputLinks(src, p, p.inputs[i]);
      ReachExtends(Links(src), root, k, edges[j].to);
      SameNamespace(src, root, k, edges[j].to);
    }
  }

  lemma {:induction false} SameNamespace(src: L.Source, root: Key, a: Key, b: Key)
    requires AllPublishable(src, root) && Reaches(Links(src), root, a) && Reaches(Links(src), root, b)
    ensures a.ns == b.ns
  {
    hide Links, Publishable;
  }

  lemma {:induction false} InspectableIsAcceptable(src: L.Source, root: Key, edges: seq<L.Edge>)
    requires Canonical(src) && Inspectable(src, root) && EmitsAll(src, root, edges)
    requires forall e :: e in edges ==> e.compatibility == L.Compatible
    ensures Acceptable(Shown(src), root) && Presentable(src, root)
  {
    hide *;
    InspectableIs(src, root);
    forall k | Reaches(Links(src), root, k)
      ensures k in Shown(src) && InputsMatch(Shown(src), Shown(src)[k])
    {
      CompatibleMatches(src, root, edges, k);
    }
    AcceptableWhenMatching(src, root);
  }

  lemma {:induction false} InspectableIs(src: L.Source, root: Key)
    requires Inspectable(src, root)
    ensures AllPublishable(src, root)
  {
    hide AllPublishable, Reached, Sizes, Shown;
  }

  lemma {:induction false} AcceptableWhenMatching(src: L.Source, root: Key)
    requires Inspectable(src, root)
    requires forall k :: Reaches(Links(src), root, k) ==> k in Shown(src) && InputsMatch(Shown(src), Shown(src)[k])
    ensures Acceptable(Shown(src), root) && Presentable(src, root)
  {
    ReachesItself(Links(src), root);
    hide Shown, Sizes, Publishable, InputsMatch;
  }

  /**
   Two independently written searches agree: on what a reader is shown, the controller accepts a root whose
   reachable products can all be published exactly when the registry's walk is complete and every edge is
   compatible.
   */
  lemma {:induction false} ControllerAgreesWithRegistry(src: L.Source, root: Key)
    requires Canonical(src) && src.deadline.None? && root in Shown(src)
    ensures CompositionTheorems.Check(Reader(Shown(src), {}, None, []), Shown(src)[root]).1 == NoReason &&
            Presentable(src, root)
            <==>
            var walk := L.WalkFrom(src, root);
            walk.Some? && walk.value.complete && forall e :: e in walk.value.edges ==> e.compatibility == L.Compatible
  {
    var s := Shown(src);
    var walk := L.WalkFrom(src, root);
    assert s[root].key == root;
    hide *;
    ShownKeyed(src);
    IsQuiet(s);
    CompositionTheorems.CheckIsExact(Reader(s, {}, None, []), s[root]);
    CompleteExactlyWhenInspectable(src, root);
    if Acceptable(s, root) && Presentable(src, root) {
      AcceptableIsInspectable(src, root);
      CompleteIsInspectable(src, root);
      InspectablePublishes(src, root);
      forall e | e in walk.value.edges
        ensures e.compatibility == L.Compatible
      {
        EdgesCompatible(src, root, walk.value.edges, e);
      }
    }
    if walk.Some? && walk.value.complete && forall e :: e in walk.value.edges ==> e.compatibility == L.Compatible {
      CompleteIsInspectable(src, root);
      InspectableIsAcceptable(src, root, walk.value.edges);
    }
  }

  lemma {:induction false} IsQuiet(s: Store)
    ensures Quiet(Reader(s, {}, None, []))
  {
  }

  lemma {:induction false} InspectablePublishes(src: L.Source, root: Key)
    requires Inspectable(src, root)
    ensures AllPublishable(src, root)
  {
    hide AllPublishable, Reached, Shown, Sizes;
  }
}
