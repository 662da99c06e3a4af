/** What the recorded readiness means once the work queue has come to rest with composition enabled. */
module Readiness {
  import opened Products
  import opened Compatibility
  import opened Digraph
  import opened Composition
  import opened CompositionTheorems
  import opened Reconcile
  import opened WorkQueue
  import Order
  import Sums

  predicate IsReady(p: Product)
  {
    p.status.ready.Some? && p.status.ready.value.status && p.status.ready.value.generation == p.generation
  }

  /** What is recorded for an input of a ready composition. */
  function ReadyInput(s: Store, p: Product, input: Input): InputStatus
    requires Target(p.key, input) in s
  {
    var producer := s[Target(p.key, input)];
    InputStatus(input.name, producer.key,
                Some((producer.version, producer.generation, FindOutput(producer.outputs, input.ref.output))),
                true, InputReady)
  }

  /** The lineage recorded for a ready composition keeps within its bound. */
  ghost predicate Fits(s: Store, c: Settings, p: Product)
  {
    (forall i {:trigger p.inputs[i]} :: 0 <= i < |p.inputs| ==> Target(p.key, p.inputs[i]) in s) &&
    Bytes(c, seq(|p.inputs|, i requires 0 <= i < |p.inputs| && Target(p.key, p.inputs[i]) in s =>
                   ReadyInput(s, p, p.inputs[i]))) <= MAX_LINEAGE_BYTES
  }

  /** A reachable product that stands in nobody's way. */
  ghost predicate Sane(s: Store, c: Settings, local: map<Key, LocalState>, root: Key, k: Key)
    requires k in s
  {
    LocallyReady(s[k], LocalOf(local, k)) && Fits(s, c, s[k]) && (k != root ==> !s[k].deleting)
  }

  /**
   Readiness without any recorded status: the declared graph is acceptable, and every product in it is
   locally ready, records a bounded lineage, and, unless it is the root, is not being deleted.
   */
  ghost predicate Healthy(s: Store, c: Settings, local: map<Key, LocalState>, root: Key)
  {
    Acceptable(s, root) && forall k {:trigger Reachable(s, root, k)} :: Reachable(s, root, k) ==>
      k in s && Sane(s, c, local, root, k)
  }

  /** Every product's recorded status is current: the work queue is empty and nothing has drifted. */
  ghost predicate AtRest(s: Store, c: Settings, local: map<Key, LocalState>)
  {
    WellKeyed(s) && forall k {:trigger s[k]} :: k in s ==> UpToDate(s, local, c, k)
  }

  // ---------------------------------------------------------------- one run

  lemma {:induction false} AllReadyNoReason(inputs: seq<InputStatus>)
    requires forall x :: x in inputs ==> x.ready
    ensures FirstUnready(inputs) == NoReason
    decreases |inputs|
  {
    if inputs != [] {
      assert inputs[0] in inputs;
      AllReadyNoReason(inputs[1..]);
    }
  }

  /** After an accepted walk over ready producers every input is recorded as ready. */
  lemma {:induction false} RecordedReady(s: Store, g: Walked, p: Product)
    requires WellKeyed(s) && p.key in s && s[p.key] == p && Acceptable(s, p.key) && ProducersReady(s, p.key)
    requires Faithful(s, g) && Targets(p) <= g.products.Keys
    ensures forall i {:trigger p.inputs[i]} :: 0 <= i < |p.inputs| ==> Target(p.key, p.inputs[i]) in s
    ensures RecordedInputs(g, p) == seq(|p.inputs|, i requires 0 <= i < |p.inputs| && Target(p.key, p.inputs[i]) in s =>
                                          ReadyInput(s, p, p.inputs[i]))
  {
    forall i | 0 <= i < |p.inputs|
      ensures Target(p.key, p.inputs[i]) in s
      ensures RecordedInput(g, p, p.inputs[i]) == ReadyInput(s, p, p.inputs[i])
    {
      RecordedReadyAt(s, g, p, i);
    }
  }

  lemma {:induction false} RecordedReadyAt(s: Store, g: Walked, p: Product, i: nat)
    requires WellKeyed(s) && p.key in s && s[p.key] == p && Acceptable(s, p.key) && ProducersReady(s, p.key)
    requires Faithful(s, g) && Targets(p) <= g.products.Keys && i < |p.inputs|
    ensures Target(p.key, p.inputs[i]) in s
    ensures RecordedInput(g, p, p.inputs[i]) == ReadyInput(s, p, p.inputs[i])
  {
    hide ProducerReady, InputCompatibility, FindOutput;
    var key := Target(p.key, p.inputs[i]);
    InputIsEdge(s, p, i);
    ReachesItself(Adjacency(s), p.key);
    assert Reachable(s, p.key, p.key);
    assert Matches(s, p.key, p.inputs[i]);
    assert key in Targets(p) && g.products[key] == s[key];
    assert ProducerReady(s[key]);
  }

  /** The state of an accepted walk holds every producer of its root as stored. */
  lemma {:induction false} AcceptedWalk(s: Store, p: Product)
    requires WellKeyed(s) && p.key in s && s[p.key] == p && Check(Quieted(s), p).1 == NoReason
    ensures var g := Check(Quieted(s), p).0;
            Faithful(s, g) && Targets(p) <= g.products.Keys && |p.inputs| <= MAX_EDGES
  {
    StartSound(s, p);
    VisitSound(Quieted(s), Start(p), p, 0);
    var g := Check(Quieted(s), p).0;
    SoundStart(s, p, g);
    hide Check, Visit, Sound, Acceptable;
    assert Composition.Settled(s, g, p.key);
    Sums.Remove(Weights(s), g.visited + g.visiting, p.key);
  }

  /** With composition enabled, a run finds the composition ready exactly on these three conditions. */
  lemma {:induction false} ComposeReady(s: Store, c: Settings, p: Product)
    requires WellKeyed(s) && p.key in s && s[p.key] == p && c.composition && p.inputs != []
    ensures var composed := Compose(Quieted(s), c, p);
            composed.condition.Some? &&
            (composed.condition.value.status <==>
               Acceptable(s, p.key) && ProducersReady(s, p.key) && Fits(s, c, p)) &&
            (!composed.condition.value.status ==> composed.condition.value.reason != NoReason)
  {
    hide Visit, Start, Acceptable, ProducersReady, Bytes, Order.Sort, FirstUnready, InputName, RecordedInput, Fits;
    var (g, stop) := Check(Quieted(s), p);
    CheckIsExact(Quieted(s), p);
    AcceptedIsAcceptable(Quieted(s), p);
    if stop == NoReason {
      AcceptedWalk(s, p);
      if g.notReady.None? {
        ReadyLineage(s, c, g, p);
      }
    }
    hide Check, RecordedInputs;
  }

  lemma {:induction false} ReadyLineage(s: Store, c: Settings, g: Walked, p: Product)
    requires WellKeyed(s) && p.key in s && s[p.key] == p && Acceptable(s, p.key) && ProducersReady(s, p.key)
    requires Faithful(s, g) && Targets(p) <= g.products.Keys
    ensures Bytes(c, RecordedInputs(g, p)) <= MAX_LINEAGE_BYTES <==> Fits(s, c, p)
    ensures FirstUnready(Order.Sort(RecordedInputs(g, p), InputName)) == NoReason
  {
    RecordedReady(s, g, p);
    hide Acceptable, ProducersReady, RecordedInput, Bytes, Order.Sort, InputName, FirstUnready;
    var recorded := RecordedInputs(g, p);
    forall x | x in Order.Sort(recorded, InputName)
      ensures x.ready
    {
      SortKeeps(recorded, x);
    }
    AllReadyNoReason(Order.Sort(recorded, InputName));
  }

  /** A settled product is ready exactly when it is locally ready and its composition, if any, is. */
  lemma {:induction false} SettledReady(s: Store, c: Settings, local: map<Key, LocalState>, k: Key)
    requires WellKeyed(s) && c.composition && k in s && UpToDate(s, local, c, k)
    ensures IsReady(s[k]) <==>
              LocallyReady(s[k], LocalOf(local, k)) &&
              (s[k].inputs != [] ==> Acceptable(s, k) && ProducersReady(s, k) && Fits(s, c, s[k]))
  {
    var p := s[k];
    assert p.key == k;
    if p.inputs != [] {
      ComposeReady(s, c, p);
    }
    QuietRun(s, c, LocalOf(local, k), p);
    RunReady(s, c, LocalOf(local, k), p);
    hide Run, Acceptable, ProducersReady, Fits, LocallyReady;
  }

  lemma {:induction false} RunReady(s: Store, c: Settings, l: LocalState, p: Product)
    requires c.composition && !Run(Quieted(s), c, l, p).failed
    requires p.inputs != [] ==>
               var composed := Compose(Quieted(s), c, p);
               composed.condition.Some? && (!composed.condition.value.status ==>
                                            composed.condition.value.reason != NoReason)
    ensures Run(Quieted(s), c, l, p).status.ready.Some?
    ensures Run(Quieted(s), c, l, p).status.ready.value.generation == p.generation
    ensures Run(Quieted(s), c, l, p).status.ready.value.status <==>
              LocallyReady(p, l) && (p.inputs != [] ==> Compose(Quieted(s), c, p).condition.value.status)
  {
    hide Check, ComposedFrom, DirectIssue;
  }

  // ---------------------------------------------------------------- at rest

  /** The graph below a producer of an acceptable graph is acceptable. */
  lemma {:induction false} AcceptableBelow(s: Store, root: Key, k: Key)
    requires Acceptable(s, root) && Reachable(s, root, k)
    ensures Acceptable(s, k)
  {
    hide Targets, InputsMatch;
    forall x | Reachable(s, k, x)
      ensures Reachable(s, root, x)
    {
      ReachJoins(Adjacency(s), root, k, x);
    }
    var d: nat :| Walk(Adjacency(s), root, k, d);
    forall x, n: nat | Walk(Adjacency(s), k, x, n)
      ensures n < MAX_DEPTH
    {
      Join(Adjacency(s), root, k, x, d, n);
    }
    SubsetCount(ReachSet(s, k), ReachSet(s, root));
    Sums.Grows(Weights(s), ReachSet(s, k), ReachSet(s, root));
  }

  /** A product without inputs forms an acceptable graph of its own. */
  lemma {:induction false} LeafAcceptable(s: Store, k: Key)
    requires WellKeyed(s) && k in s && s[k].inputs == []
    ensures Acceptable(s, k)
    ensures forall x :: Reachable(s, k, x) ==> x == k
  {
    assert Succ(Adjacency(s), k) == {};
    ReachesItself(Adjacency(s), k);
    forall x | Reachable(s, k, x)
      ensures x == k
    {
    }
    forall x, n: nat | Walk(Adjacency(s), k, x, n)
      ensures n == 0
    {
    }
    hide Walk;
    assert ReachSet(s, k) == {k};
    Sums.Remove(Weights(s), {k}, k);
    assert {k} - {k} == {};
  }

  /** At rest, readiness comes with the health of the whole graph. */
  lemma {:induction false} ReadyIsHealthy(s: Store, c: Settings, local: map<Key, LocalState>, root: Key)
    requires AtRest(s, c, local) && c.composition && root in s && IsReady(s[root])
    ensures Healthy(s, c, local, root)
  {
    hide Acceptable, ProducersReady, UpToDate, LocallyReady, Fits;
    ReadyFacts(s, c, local, root);
    forall k | Reachable(s, root, k)
      ensures k in s && Sane(s, c, local, root, k)
    {
      AcceptableHolds(s, root, k);
      if k != root {
        var n: nat :| Walk(Adjacency(s), root, k, n);
        assert n > 0;
        var m := LastEdge(Adjacency(s), root, k, n);
        ProducerIsReady(s, root, m, k, n - 1);
        ReadyFacts(s, c, local, k);
      }
    }
  }

  lemma {:induction false} AcceptableHolds(s: Store, root: Key, k: Key)
    requires Acceptable(s, root) && Reachable(s, root, k)
    ensures k in s
  {
  }

  lemma {:induction false} ProducerIsReady(s: Store, root: Key, m: Key, k: Key, n: nat)
    requires ProducersReady(s, root) && Walk(Adjacency(s), root, m, n) && k in Succ(Adjacency(s), m) && k in s
    ensures IsReady(s[k]) && !s[k].deleting
  {
    assert Reachable(s, root, m);
    EdgeIsInput(s, m, k);
    hide Targets;
    assert ProducerReady(s[k]);
  }

  /** What the readiness of one settled product says about its own graph. */
  lemma {:induction false} ReadyFacts(s: Store, c: Settings, local: map<Key, LocalState>, k: Key)
    requires AtRest(s, c, local) && c.composition && k in s && IsReady(s[k])
    ensures Acceptable(s, k) && ProducersReady(s, k) && Fits(s, c, s[k]) && LocallyReady(s[k], LocalOf(local, k))
  {
    assert UpToDate(s, local, c, k);
    hide UpToDate, Acceptable;
    SettledReady(s, c, local, k);
    if s[k].inputs == [] {
      LeafAcceptable(s, k);
      LeafFits(s, c, s[k]);
      assert Targets(s[k]) == {};
      hide Reachable, Targets, ProducerReady;
      assert forall x :: Reachable(s, k, x) && x in s ==> Targets(s[x]) == {};
    }
  }

  lemma {:induction false} LeafFits(s: Store, c: Settings, p: Product)
    requires p.inputs == []
    ensures Fits(s, c, p)
  {
    assert seq(|p.inputs|, i requires 0 <= i < |p.inputs| && Target(p.key, p.inputs[i]) in s =>
                 ReadyInput(s, p, p.inputs[i])) == [];
  }

  lemma {:induction false} HealthyBelow(s: Store, c: Settings, local: map<Key, LocalState>, root: Key, m: Key, k: Key)
    requires Healthy(s, c, local, root) && Reachable(s, root, m) && k in Succ(Adjacency(s), m)
    ensures Healthy(s, c, local, k) && k in s && !s[k].deleting
  {
    hide Acceptable, LocallyReady, Fits;
    ReachExtends(Adjacency(s), root, m, k);
    AcceptableBelow(s, root, k);
    NoReturn(s, root, m, k, root);
    forall x | Reachable(s, k, x)
      ensures x in s && Sane(s, c, local, k, x)
    {
      ReachJoins(Adjacency(s), root, k, x);
      assert Reachable(s, root, x);
      assert Sane(s, c, local, root, x);
      NoReturn(s, root, m, k, x);
    }
    assert Sane(s, c, local, root, k);
  }

  /** No product below a producer of an acceptable graph is its root. */
  lemma {:induction false} NoReturn(s: Store, root: Key, m: Key, k: Key, x: Key)
    requires Acceptable(s, root) && Reachable(s, root, m) && k in Succ(Adjacency(s), m)
    requires Reachable(s, k, x) || x == root
    ensures Reachable(s, k, x) ==> x != root
    ensures k != root
  {
    hide Targets;
    var d: nat :| Walk(Adjacency(s), root, m, d);
    Extend(Adjacency(s), root, m, k, d);
    ReachesItself(Adjacency(s), root);
    if k == root {
      AcceptableIsAcyclic(s, root, root, d + 1);
    }
    if Reachable(s, k, x) && x == root {
      var e: nat :| Walk(Adjacency(s), k, root, e);
      Join(Adjacency(s), root, k, root, d + 1, e);
      AcceptableIsAcyclic(s, root, root, d + 1 + e);
    }
  }

  /** At rest, the health of a graph makes its root ready. */
  lemma {:induction false} HealthyIsReady(s: Store, c: Settings, local: map<Key, LocalState>, root: Key, bound: nat)
    requires AtRest(s, c, local) && c.composition && root in s && Healthy(s, c, local, root)
    requires forall k, n: nat :: Walk(Adjacency(s), root, k, n) ==> n <= bound
    ensures IsReady(s[root])
    decreases bound
  {
    assert UpToDate(s, local, c, root);
    ReachesItself(Adjacency(s), root);
    assert Reachable(s, root, root) && Sane(s, c, local, root, root);
    hide UpToDate, Acceptable, LocallyReady, Fits;
    SettledReady(s, c, local, root);
    forall k, t | Reachable(s, root, k) && k in s && t in Targets(s[k]) && t in s
      ensures ProducerReady(s[t])
    {
      assert s[k].key == k;
      assert t in Succ(Adjacency(s), k);
      HealthyBelow(s, c, local, root, k, t);
      BoundBelow(s, root, k, t, bound);
      HealthyIsReady(s, c, local, t, bound - 1);
    }
  }

  lemma {:induction false} BoundBelow(s: Store, root: Key, k: Key, t: Key, bound: nat)
    requires Reachable(s, root, k) && t in Succ(Adjacency(s), k)
    requires forall x, n: nat :: Walk(Adjacency(s), root, x, n) ==> n <= bound
    ensures bound > 0 && forall x, n: nat :: Walk(Adjacency(s), t, x, n) ==> n <= bound - 1
  {
    hide Targets;
    var d: nat :| Walk(Adjacency(s), root, k, d);
    Extend(Adjacency(s), root, k, t, d);
    forall x, n: nat | Walk(Adjacency(s), t, x, n)
      ensures n <= bound - 1
    {
      Join(Adjacency(s), root, t, x, d + 1, n);
    }
  }

  /** At rest with composition enabled, readiness is exactly health. */
  lemma {:induction false} ReadyExactlyWhenHealthy(s: Store, c: Settings, local: map<Key, LocalState>, root: Key)
    requires AtRest(s, c, local) && c.composition && root in s
    ensures IsReady(s[root]) <==> Healthy(s, c, local, root)
  {
    if IsReady(s[root]) {
      ReadyIsHealthy(s, c, local, root);
    }
    if Healthy(s, c, local, root) {
      HealthyIsReady(s, c, local, root, MAX_DEPTH);
    }
  }

  /** Whatever can reach a cycle is not ready at rest. */
  lemma {:induction false} CyclesAreNotReady(s: Store, c: Settings, local: map<Key, LocalState>, root: Key, k: Key,
                                             n: nat)
    requires AtRest(s, c, local) && c.composition && root in s
    requires Reachable(s, root, k) && Walk(Adjacency(s), k, k, n) && n > 0
    ensures !IsReady(s[root])
  {
    if IsReady(s[root]) {
      ReadyIsHealthy(s, c, local, root);
      AcceptableIsAcyclic(s, root, k, n);
    }
  }

  /** The stores declare the same products; only recorded statuses differ. */
  ghost predicate SameDeclarations(a: Store, b: Store)
  {
    a.Keys == b.Keys && forall k {:trigger a[k]} {:trigger b[k]} :: k in a ==>
      a[k].(status := NoStatus) == b[k].(status := NoStatus)
  }

  lemma {:induction false} AdjacencyDeclared(a: Store, b: Store)
    requires SameDeclarations(a, b)
    ensures Adjacency(a) == Adjacency(b) && Weights(a) == Weights(b)
  {
    forall k | k in a
      ensures Targets(a[k]) == Targets(b[k]) && |a[k].inputs| == |b[k].inputs|
    {
      assert a[k].(status := NoStatus) == b[k].(status := NoStatus);
    }
  }

  lemma {:induction false} HealthDeclared(a: Store, b: Store, c: Settings, local: map<Key, LocalState>, root: Key)
    requires SameDeclarations(a, b) && Healthy(a, c, local, root)
    ensures Healthy(b, c, local, root)
  {
    AdjacencyDeclared(a, b);
    assert forall k :: Reachable(a, root, k) <==> Reachable(b, root, k);
    assert ReachSet(a, root) == ReachSet(b, root);
    forall k | Reachable(b, root, k)
      ensures k in b && InputsMatch(b, b[k]) && Sane(b, c, local, root, k)
    {
      assert Reachable(a, root, k) && Sane(a, c, local, root, k) && InputsMatch(a, a[k]);
      SaneDeclared(a, b, c, local, root, k);
    }
  }

  lemma {:induction false} SaneDeclared(a: Store, b: Store, c: Settings, local: map<Key, LocalState>, root: Key, k: Key)
    requires SameDeclarations(a, b) && k in a && Sane(a, c, local, root, k) && InputsMatch(a, a[k])
    ensures InputsMatch(b, b[k]) && Sane(b, c, local, root, k)
  {
    var p, q := a[k], b[k];
    assert p.(status := NoStatus) == q.(status := NoStatus);
    hide Bytes, LocallyReady, FindOutput;
    forall i | 0 <= i < |q.inputs|
      ensures Matches(b, q.key, q.inputs[i])
    {
      assert Matches(a, p.key, p.inputs[i]);
      var t := Target(p.key, p.inputs[i]);
      assert a[t].(status := NoStatus) == b[t].(status := NoStatus);
      MatchDeclared(p.inputs[i], a[t], b[t]);
    }
    assert LocallyReady(q, LocalOf(local, k)) by { LocallyDeclared(p, q, LocalOf(local, k)); }
    LineageDeclared(a, b, c, p, q);
  }

  lemma {:induction false} MatchDeclared(input: Input, p: Product, q: Product)
    requires p.(status := NoStatus) == q.(status := NoStatus)
    ensures InputCompatibility(input, p) == InputCompatibility(input, q)
  {
  }

  lemma {:induction false} LocallyDeclared(p: Product, q: Product, l: LocalState)
    requires p.(status := NoStatus) == q.(status := NoStatus)
    ensures LocallyReady(p, l) == LocallyReady(q, l)
  {
  }

  lemma {:induction false} LineageDeclared(a: Store, b: Store, c: Settings, p: Product, q: Product)
    requires SameDeclarations(a, b) && p.(status := NoStatus) == q.(status := NoStatus) && Fits(a, c, p)
    ensures Fits(b, c, q)
  {
    hide Bytes, FindOutput;
    forall i | 0 <= i < |p.inputs|
      ensures Target(q.key, q.inputs[i]) in b && ReadyInput(a, p, p.inputs[i]) == ReadyInput(b, q, q.inputs[i])
    {
      var t := Target(p.key, p.inputs[i]);
      assert a[t].(status := NoStatus) == b[t].(status := NoStatus);
    }
    assert seq(|p.inputs|, i requires 0 <= i < |p.inputs| && Target(p.key, p.inputs[i]) in a =>
                 ReadyInput(a, p, p.inputs[i]))
        == seq(|q.inputs|, i requires 0 <= i < |q.inputs| && Target(q.key, q.inputs[i]) in b =>
                 ReadyInput(b, q, q.inputs[i]));
  }

  /** The declarations and local states alone determine readiness at rest, even on cyclic graphs. */
  lemma {:induction false} ReadinessIsUnique(a: Store, b: Store, c: Settings, local: map<Key, LocalState>, root: Key)
    requires SameDeclarations(a, b) && AtRest(a, c, local) && AtRest(b, c, local) && c.composition && root in a
    ensures IsReady(a[root]) <==> IsReady(b[root])
  {
    ReadyExactlyWhenHealthy(a, c, local, root);
    ReadyExactlyWhenHealthy(b, c, local, root);
    if Healthy(a, c, local, root) {
      HealthDeclared(a, b, c, local, root);
    }
    if Healthy(b, c, local, root) {
      HealthDeclared(b, a, c, local, root);
    }
  }

  /** In every run, a point with nothing queued, running, drifted or missed is at rest. */
  lemma {:induction false} QuiescenceIsRest(states: seq<System>, steps: seq<Step>, c: Settings, i: nat)
    requires Behaviour(states, steps, c) && i < |states|
    requires states[i].queue == {} && states[i].running == map[] && states[i].drifted == {} && states[i].missed == {}
    ensures AtRest(states[i].store, c, states[i].local)
  {
    InvAlways(states, steps, c, i);
    hide Run;
    forall k | k in states[i].store
      ensures UpToDate(states[i].store, states[i].local, c, k)
    {
      assert InvAt(states[i], c, k);
    }
  }
}
