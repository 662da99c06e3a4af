/** What readiness means at rest with composition disabled, where cycles can keep themselves ready or waiting. */
module DirectRest {
  import opened Products
  import opened Digraph
  import opened Composition
  import opened CompositionTheorems
  import opened Reconcile
  import opened WorkQueue
  import opened Readiness

  /** An input whose producer is in the same namespace, stored, ready, and has the output. */
  predicate Serving(s: Store, p: Product, input: Input)
  {
    var key := Target(p.key, input);
    key.ns == p.key.ns && key in s && ProducerReady(s[key]) && FindOutput(s[key].outputs, input.ref.output).Some?
  }

  lemma {:induction false} NoIssue(s: Store, p: Product, i: nat)
    requires i <= |p.inputs|
    ensures FirstDirectIssue(Quieted(s), p, i) == NoReason <==>
            forall j {:trigger p.inputs[j]} :: i <= j < |p.inputs| ==> Serving(s, p, p.inputs[j])
    decreases |p.inputs| - i
  {
    hide FindOutput, ProducerReady, Target;
    if i < |p.inputs| {
      NoIssue(s, p, i + 1);
      assert DirectIssue(DirectView(Quieted(s), i), p, p.inputs[i]) == NoReason <==> Serving(s, p, p.inputs[i]);
      hide Serving, DirectIssue;
    }
  }

  /** Without composition a settled product is ready exactly under these conditions on itself and its producers. */
  lemma {:induction false} SettledDirect(s: Store, c: Settings, local: map<Key, LocalState>, k: Key)
    requires WellKeyed(s) && !c.composition && k in s && UpToDate(s, local, c, k)
    ensures IsReady(s[k]) <==>
              && LocallyReady(s[k], LocalOf(local, k)) && !RequiresContract(s[k])
              && forall j {:trigger s[k].inputs[j]} :: 0 <= j < |s[k].inputs| ==> Serving(s, s[k], s[k].inputs[j])
  {
    var p := s[k];
    NoIssue(s, p, 0);
    hide Serving, FirstDirectIssue;
    DisabledRun(s, c, LocalOf(local, k), p);
    hide Run, LocallyReady, RequiresContract;
  }

  lemma {:induction false} DisabledRun(s: Store, c: Settings, l: LocalState, p: Product)
    requires !c.composition
    ensures var status := Run(Quieted(s), c, l, p).status;
            && status.ready.Some? && status.ready.value.generation == p.generation
            && (status.ready.value.status <==>
                  LocallyReady(p, l) && !RequiresContract(p) && FirstDirectIssue(Quieted(s), p, 0) == NoReason)
  {
    assert RequiresContract(p) ==> p.inputs != [];
    hide FirstDirectIssue, ComposedFrom, Check, RequiresContract;
    if p.inputs == [] {
      NoInputsNoIssue(s, p);
    }
  }

  lemma {:induction false} NoInputsNoIssue(s: Store, p: Product)
    requires p.inputs == []
    ensures FirstDirectIssue(Quieted(s), p, 0) == NoReason
  {
  }

  // ---------------------------------------------------------------- health without status

  /** Nothing but the readiness of its producers stands in the product's way. */
  ghost predicate Usable(s: Store, local: map<Key, LocalState>, k: Key)
    requires k in s
  {
    && LocallyReady(s[k], LocalOf(local, k)) && !RequiresContract(s[k])
    && forall j {:trigger s[k].inputs[j]} :: 0 <= j < |s[k].inputs| ==> Supplied(s, s[k], s[k].inputs[j])
  }

  /** The input's producer could serve it, once it is ready. */
  predicate Supplied(s: Store, p: Product, input: Input)
  {
    var key := Target(p.key, input);
    key.ns == p.key.ns && key in s && !s[key].deleting && FindOutput(s[key].outputs, input.ref.output).Some?
  }

  /** Everything the product depends on is usable. */
  ghost predicate DirectHealthy(s: Store, local: map<Key, LocalState>, root: Key)
  {
    forall k {:trigger Reachable(s, root, k)} :: Reachable(s, root, k) ==> k in s && Usable(s, local, k)
  }

  ghost predicate ReachesCycle(s: Store, root: Key)
  {
    exists k, n: nat :: n > 0 && Reachable(s, root, k) && Walk(Adjacency(s), k, k, n)
  }

  lemma {:induction false} ServingIs(s: Store, p: Product, input: Input)
    ensures Serving(s, p, input) <==>
            Supplied(s, p, input) && Target(p.key, input) in s && IsReady(s[Target(p.key, input)])
  {
    hide FindOutput, Target;
  }

  /** A settled, usable product is ready exactly when all its producers are. */
  lemma {:induction false} UsableReady(s: Store, c: Settings, local: map<Key, LocalState>, k: Key)
    requires WellKeyed(s) && !c.composition && k in s && UpToDate(s, local, c, k) && Usable(s, local, k)
    ensures forall t :: t in Targets(s[k]) ==> t in s
    ensures IsReady(s[k]) <==> forall t :: t in Targets(s[k]) ==> t in s && IsReady(s[t])
  {
    SettledDirect(s, c, local, k);
    var p := s[k];
    hide UpToDate, IsReady, LocallyReady, RequiresContract, Serving, Supplied, Target;
    forall j | 0 <= j < |p.inputs|
      ensures Target(p.key, p.inputs[j]) in s
      ensures Serving(s, p, p.inputs[j]) <==> IsReady(s[Target(p.key, p.inputs[j])])
    {
      assert Supplied(s, p, p.inputs[j]);
      SuppliedIn(s, p, p.inputs[j]);
      ServingIs(s, p, p.inputs[j]);
    }
    if forall t :: t in Targets(p) ==> t in s && IsReady(s[t]) {
      forall j | 0 <= j < |p.inputs|
        ensures Serving(s, p, p.inputs[j])
      {
        assert Target(p.key, p.inputs[j]) in Targets(p);
      }
    }
  }

  lemma {:induction false} SuppliedIn(s: Store, p: Product, input: Input)
    requires Supplied(s, p, input)
    ensures Target(p.key, input) in s
  {
  }

  lemma {:induction false} UsableWhenReady(s: Store, c: Settings, local: map<Key, LocalState>, k: Key)
    requires WellKeyed(s) && !c.composition && k in s && UpToDate(s, local, c, k) && IsReady(s[k])
    ensures Usable(s, local, k) && forall t :: t in Targets(s[k]) ==> t in s && IsReady(s[t])
  {
    SettledDirect(s, c, local, k);
    var p := s[k];
    hide UpToDate, IsReady, LocallyReady, RequiresContract, Serving, Supplied, Target;
    forall j {:trigger p.inputs[j]} | 0 <= j < |p.inputs|
      ensures Supplied(s, p, p.inputs[j])
    {
      ServingIs(s, p, p.inputs[j]);
    }
    UsableReady(s, c, local, k);
  }

  lemma {:induction false} TargetsSucceed(s: Store, k: Key, t: Key)
    requires WellKeyed(s)
    ensures t in Succ(Adjacency(s), k) <==> k in s && t in Targets(s[k])
  {
    hide Targets;
  }

  /** At rest, on any graph, a ready product depends on usable and ready products only. */
  lemma {:induction false} DirectReadyIsHealthy(s: Store, c: Settings, local: map<Key, LocalState>, root: Key)
    requires AtRest(s, c, local) && !c.composition && root in s && IsReady(s[root])
    ensures DirectHealthy(s, local, root)
  {
    hide AtRest, Usable, IsReady, Adjacency;
    forall k | Reachable(s, root, k)
      ensures k in s && Usable(s, local, k)
    {
      var n: nat :| Walk(Adjacency(s), root, k, n);
      ReadyAlong(s, c, local, root, k, n);
    }
  }

  lemma {:induction false} ReadyAlong(s: Store, c: Settings, local: map<Key, LocalState>, root: Key, k: Key, n: nat)
    requires AtRest(s, c, local) && !c.composition && root in s && IsReady(s[root]) && Walk(Adjacency(s), root, k, n)
    ensures k in s && IsReady(s[k]) && Usable(s, local, k)
    decreases n
  {
    hide *;
    RestIs(s, c, local, root);
    UsableWhenReady(s, c, local, root);
    if n > 0 {
      var t := FirstEdge(s, root, k, n);
      TargetsSucceed(s, root, t);
      ReadyAlong(s, c, local, t, k, n - 1);
    } else {
      EmptyWalk(s, root, k);
    }
  }

  lemma {:induction false} RestIs(s: Store, c: Settings, local: map<Key, LocalState>, k: Key)
    requires AtRest(s, c, local) && k in s
    ensures WellKeyed(s) && UpToDate(s, local, c, k)
  {
    hide UpToDate, WellKeyed;
    assert s[k] == s[k];
  }

  lemma {:induction false} FirstEdge(s: Store, root: Key, k: Key, n: nat) returns (t: Key)
    requires n > 0 && Walk(Adjacency(s), root, k, n)
    ensures t in Succ(Adjacency(s), root) && Walk(Adjacency(s), t, k, n - 1)
  {
    hide Adjacency;
    t :| t in Succ(Adjacency(s), root) && Walk(Adjacency(s), t, k, n - 1);
  }

  lemma {:induction false} EmptyWalk(s: Store, root: Key, k: Key)
    requires Walk(Adjacency(s), root, k, 0)
    ensures root == k
  {
    hide Adjacency;
  }

  lemma {:induction false} DirectHealthyBelow(s: Store, local: map<Key, LocalState>, root: Key, k: Key)
    requires DirectHealthy(s, local, root) && Reachable(s, root, k)
    ensures DirectHealthy(s, local, k) && k in s && Usable(s, local, k)
  {
    hide Usable, Adjacency;
    forall x | Reachable(s, k, x)
      ensures Reachable(s, root, x)
    {
      ReachJoins(Adjacency(s), root, k, x);
    }
  }

  /** Reachable products that are not ready. */
  ghost function Unready(s: Store, root: Key): set<Key>
  {
    set k | k in s && Reachable(s, root, k) && !IsReady(s[k])
  }

  /** At rest, an unready product above usable ones has an unready producer. */
  lemma {:induction false} UnreadyGoesOn(s: Store, c: Settings, local: map<Key, LocalState>, root: Key, k: Key)
    requires AtRest(s, c, local) && !c.composition && DirectHealthy(s, local, root) && k in Unready(s, root)
    ensures HasSuccessor(Adjacency(s), Unready(s, root), k)
  {
    assert UpToDate(s, local, c, k);
    DirectHealthyBelow(s, local, root, k);
    hide UpToDate, Usable, IsReady, Adjacency, Targets, DirectHealthy;
    UsableReady(s, c, local, k);
    var t :| t in Targets(s[k]) && !IsReady(s[t]);
    TargetsSucceed(s, k, t);
    ReachExtends(Adjacency(s), root, k, t);
    assert t in Unready(s, root);
  }

  /** At rest, a product whose dependencies are all usable is ready, unless they close a cycle. */
  lemma {:induction false} DirectHealthyIsReady(s: Store, c: Settings, local: map<Key, LocalState>, root: Key)
    requires AtRest(s, c, local) && !c.composition && root in s
    requires DirectHealthy(s, local, root) && !ReachesCycle(s, root)
    ensures IsReady(s[root])
  {
    hide AtRest, DirectHealthy, IsReady, Adjacency;
    ReachesItself(Adjacency(s), root);
    if !IsReady(s[root]) {
      var all := Unready(s, root);
      assert root in all;
      forall k {:trigger HasSuccessor(Adjacency(s), all, k)} | k in all
        ensures HasSuccessor(Adjacency(s), all, k)
      {
        UnreadyGoesOn(s, c, local, root, k);
      }
      var k, n := CycleInside(Adjacency(s), all);
      assert false;
    }
  }

  // ---------------------------------------------------------------- uniqueness

  lemma {:induction false} UsableDeclared(a: Store, b: Store, local: map<Key, LocalState>, k: Key)
    requires SameDeclarations(a, b) && k in a && Usable(a, local, k)
    ensures k in b && Usable(b, local, k)
  {
    var p, q := a[k], b[k];
    assert p.(status := NoStatus) == q.(status := NoStatus);
    LocallyDeclared(p, q, LocalOf(local, k));
    hide LocallyReady, FindOutput, RequiresContract;
    ContractsDeclared(p, q);
    forall j {:trigger q.inputs[j]} | 0 <= j < |q.inputs|
      ensures Supplied(b, q, q.inputs[j])
    {
      assert Supplied(a, p, p.inputs[j]);
      var t := Target(p.key, p.inputs[j]);
      assert a[t].(status := NoStatus) == b[t].(status := NoStatus);
    }
  }

  lemma {:induction false} ContractsDeclared(p: Product, q: Product)
    requires p.inputs == q.inputs
    ensures RequiresContract(p) == RequiresContract(q)
  {
  }

  lemma {:induction false} DirectHealthDeclared(a: Store, b: Store, local: map<Key, LocalState>, root: Key)
    requires SameDeclarations(a, b) && DirectHealthy(a, local, root)
    ensures DirectHealthy(b, local, root)
  {
    AdjacencyDeclared(a, b);
    hide SameDeclarations, Usable, Adjacency;
    forall k | Reachable(b, root, k)
      ensures k in b && Usable(b, local, k)
    {
      assert Reachable(a, root, k);
      UsableDeclared(a, b, local, k);
    }
  }

  lemma {:induction false} DeclarationsFlip(a: Store, b: Store)
    requires SameDeclarations(a, b)
    ensures SameDeclarations(b, a) && (forall k :: ReachesCycle(a, k) <==> ReachesCycle(b, k))
  {
    AdjacencyDeclared(a, b);
    assert forall k, x :: Reachable(a, k, x) <==> Reachable(b, k, x);
    hide Adjacency;
  }

  /** Without a cycle, declarations and local states alone determine readiness at rest. */
  lemma {:induction false} DirectReadinessIsUnique(a: Store, b: Store, c: Settings, local: map<Key, LocalState>,
                                                   root: Key)
    requires SameDeclarations(a, b) && AtRest(a, c, local) && AtRest(b, c, local) && !c.composition && root in a
    requires !ReachesCycle(a, root)
    ensures root in b && (IsReady(a[root]) <==> IsReady(b[root]))
  {
    DeclarationsFlip(a, b);
    assert root in b;
    hide SameDeclarations, AtRest, IsReady, DirectHealthy, ReachesCycle;
    if IsReady(a[root]) {
      DirectReadyIsHealthy(a, c, local, root);
      DirectHealthDeclared(a, b, local, root);
      DirectHealthyIsReady(b, c, local, root);
    }
    if IsReady(b[root]) {
      DirectReadyIsHealthy(b, c, local, root);
      DirectHealthDeclared(b, a, local, root);
      DirectHealthyIsReady(a, c, local, root);
    }
  }

  // ---------------------------------------------------------------- cycles

  /** The status of a usable product that is ready, or waits for a producer. */
  function Recorded(p: Product, l: LocalState, ready: bool): Status
  {
    Status(Some(Condition(ready, if ready then DependenciesReady else DependencyNotReady, p.generation)), None,
           SourceCondition(p, l), ConnectorCondition(p, l), ContractsCondition(p, l), [], p.generation)
  }

  /** The declarations of a store, with everything ready except the products that reach a cycle, or those as well. */
  ghost function Marked(s: Store, local: map<Key, LocalState>, cycles: bool): (m: Store)
    ensures m.Keys == s.Keys
    ensures forall k {:trigger m[k]} :: k in s ==>
              m[k] == s[k].(status := Recorded(s[k], LocalOf(local, k), cycles || !ReachesCycle(s, k)))
  {
    map k | k in s :: s[k].(status := Recorded(s[k], LocalOf(local, k), cycles || !ReachesCycle(s, k)))
  }

  ghost predicate AllUsable(s: Store, local: map<Key, LocalState>)
  {
    forall k {:trigger Usable(s, local, k)} :: k in s ==> Usable(s, local, k)
  }

  lemma {:induction false} MarkedDeclares(s: Store, local: map<Key, LocalState>, cycles: bool)
    requires WellKeyed(s)
    ensures SameDeclarations(s, Marked(s, local, cycles)) && WellKeyed(Marked(s, local, cycles))
    ensures forall k :: k in s ==> (IsReady(Marked(s, local, cycles)[k]) <==> cycles || !ReachesCycle(s, k))
  {
    hide ReachesCycle;
  }

  lemma {:induction false} CycleAbove(s: Store, k: Key, t: Key)
    requires WellKeyed(s) && k in s && t in Targets(s[k]) && ReachesCycle(s, t)
    ensures ReachesCycle(s, k)
  {
    TargetsSucceed(s, k, t);
    hide Targets, Adjacency;
    var x, n: nat :| n > 0 && Reachable(s, t, x) && Walk(Adjacency(s), x, x, n);
    ReachesItself(Adjacency(s), k);
    ReachExtends(Adjacency(s), k, k, t);
    ReachJoins(Adjacency(s), k, t, x);
  }

  /** Whatever reaches a cycle has a producer that does. */
  lemma {:induction false} CycleBelow(s: Store, k: Key) returns (t: Key)
    requires WellKeyed(s) && k in s && ReachesCycle(s, k)
    ensures t in Targets(s[k]) && ReachesCycle(s, t)
  {
    hide Targets, Adjacency;
    var x, n: nat :| n > 0 && Reachable(s, k, x) && Walk(Adjacency(s), x, x, n);
    var d: nat :| Walk(Adjacency(s), k, x, d);
    var steps := if d > 0 then d else n;
    assert Walk(Adjacency(s), k, x, steps);
    t :| t in Succ(Adjacency(s), k) && Walk(Adjacency(s), t, x, steps - 1);
    assert Reachable(s, t, x);
    TargetsSucceed(s, k, t);
  }

  /** The first issue of inputs that are all supplied is that a producer is not ready. */
  lemma {:induction false} SuppliedIssue(m: Store, p: Product, i: nat)
    requires i <= |p.inputs|
    requires forall j {:trigger p.inputs[j]} :: 0 <= j < |p.inputs| ==> Supplied(m, p, p.inputs[j])
    ensures FirstDirectIssue(Quieted(m), p, i) in {NoReason, DependencyNotReady}
    decreases |p.inputs| - i
  {
    hide FindOutput, Target;
    if i < |p.inputs| {
      SuppliedIssue(m, p, i + 1);
      assert Supplied(m, p, p.inputs[i]);
    }
  }

  /** In the marked store every recorded status is what a run computes. */
  lemma {:induction false} MarkedRests(s: Store, c: Settings, local: map<Key, LocalState>, cycles: bool, k: Key)
    requires WellKeyed(s) && !c.composition && AllUsable(s, local) && k in s
    ensures var m := Marked(s, local, cycles);
            k in m && UpToDate(m, local, c, k)
  {
    var m := Marked(s, local, cycles);
    var p := m[k];
    MarkedDeclares(s, local, cycles);
    assert Usable(s, local, k);
    UsableDeclared(s, m, local, k);
    MarkedIssue(s, local, cycles, k);
    hide Marked, Supplied, FirstDirectIssue, ReachesCycle, AllUsable;
    MarkedRun(m, c, LocalOf(local, k), p, cycles || !ReachesCycle(s, k));
    MarkedStatus(s, local, cycles, k);
    hide Run, Usable;
  }

  lemma {:induction false} MarkedIssue(s: Store, local: map<Key, LocalState>, cycles: bool, k: Key)
    requires WellKeyed(s) && AllUsable(s, local) && k in s
    ensures var m := Marked(s, local, cycles);
            FirstDirectIssue(Quieted(m), m[k], 0) ==
            if cycles || !ReachesCycle(s, k) then NoReason else DependencyNotReady
  {
    var m := Marked(s, local, cycles);
    MarkedDeclares(s, local, cycles);
    assert Usable(s, local, k);
    UsableDeclared(s, m, local, k);
    MarkedServing(s, local, cycles, k);
    hide Marked, Supplied, Serving, FirstDirectIssue, ReachesCycle, AllUsable;
    IssueOf(m, m[k], cycles || !ReachesCycle(s, k));
  }

  lemma {:induction false} IssueOf(m: Store, p: Product, ready: bool)
    requires forall j {:trigger p.inputs[j]} :: 0 <= j < |p.inputs| ==> Supplied(m, p, p.inputs[j])
    requires (forall j {:trigger p.inputs[j]} :: 0 <= j < |p.inputs| ==> Serving(m, p, p.inputs[j])) <==> ready
    ensures FirstDirectIssue(Quieted(m), p, 0) == if ready then NoReason else DependencyNotReady
  {
    hide Supplied, Serving, FirstDirectIssue;
    SuppliedIssue(m, p, 0);
    NoIssue(m, p, 0);
  }

  lemma {:induction false} MarkedStatus(s: Store, local: map<Key, LocalState>, cycles: bool, k: Key)
    requires k in s
    ensures var p := Marked(s, local, cycles)[k];
            p.status == Recorded(p, LocalOf(local, k), cycles || !ReachesCycle(s, k))
  {
    hide ReachesCycle;
  }

  /** All producers of a product are ready in the marked store exactly when it is marked ready itself. */
  lemma {:induction false} MarkedServing(s: Store, local: map<Key, LocalState>, cycles: bool, k: Key)
    requires WellKeyed(s) && AllUsable(s, local) && k in s
    ensures var m := Marked(s, local, cycles);
            (forall j {:trigger m[k].inputs[j]} :: 0 <= j < |m[k].inputs| ==> Serving(m, m[k], m[k].inputs[j])) <==>
            cycles || !ReachesCycle(s, k)
  {
    hide *;
    MarkedDeclares(s, local, cycles);
    var m := Marked(s, local, cycles);
    var p := m[k];
    MarkedSame(s, local, cycles, k);
    forall j {:trigger p.inputs[j]} | 0 <= j < |p.inputs|
      ensures var t := Target(p.key, p.inputs[j]);
              t in s && t in Targets(s[k]) && (Serving(m, p, p.inputs[j]) <==> cycles || !ReachesCycle(s, t))
    {
      MarkedInput(s, local, cycles, k, j);
    }
    if !cycles && ReachesCycle(s, k) {
      var t := CycleBelow(s, k);
      var j := InputOf(s[k], t);
      assert !Serving(m, p, p.inputs[j]);
    } else {
      forall j {:trigger p.inputs[j]} | 0 <= j < |p.inputs|
        ensures Serving(m, p, p.inputs[j])
      {
        var t := Target(p.key, p.inputs[j]);
        if ReachesCycle(s, t) {
          CycleAbove(s, k, t);
        }
      }
    }
  }

  lemma {:induction false} MarkedSame(s: Store, local: map<Key, LocalState>, cycles: bool, k: Key)
    requires WellKeyed(s) && k in s
    ensures var p := Marked(s, local, cycles)[k];
            p.inputs == s[k].inputs && p.key == s[k].key == k
  {
    hide ReachesCycle;
  }

  lemma {:induction false} InputOf(p: Product, t: Key) returns (j: nat)
    requires t in Targets(p)
    ensures j < |p.inputs| && t == Target(p.key, p.inputs[j])
  {
    j :| 0 <= j < |p.inputs| && t == Target(p.key, p.inputs[j]);
  }

  lemma {:induction false} MarkedInput(s: Store, local: map<Key, LocalState>, cycles: bool, k: Key, j: nat)
    requires WellKeyed(s) && AllUsable(s, local) && k in s && j < |s[k].inputs|
    ensures var m := Marked(s, local, cycles);
            var t := Target(k, s[k].inputs[j]);
            t in s && t in Targets(s[k]) && (Serving(m, m[k], m[k].inputs[j]) <==> cycles || !ReachesCycle(s, t))
  {
    var m := Marked(s, local, cycles);
    MarkedDeclares(s, local, cycles);
    MarkedSame(s, local, cycles, k);
    assert Usable(s, local, k);
    UsableDeclared(s, m, local, k);
    assert Supplied(m, m[k], m[k].inputs[j]);
    hide Marked, Supplied, Serving, ReachesCycle, LocallyReady, RequiresContract, IsReady, Target, AllUsable,
         SameDeclarations;
    SuppliedIn(m, m[k], m[k].inputs[j]);
    ServingIs(m, m[k], m[k].inputs[j]);
  }

  lemma {:induction false} MarkedRun(m: Store, c: Settings, l: LocalState, p: Product, ready: bool)
    requires !c.composition && LocallyReady(p, l) && !RequiresContract(p)
    requires FirstDirectIssue(Quieted(m), p, 0) == if ready then NoReason else DependencyNotReady
    ensures Run(Quieted(m), c, l, p).status == Recorded(p, l, ready)
  {
    hide FirstDirectIssue, RequiresContract;
  }

  /**
   Cycles keep themselves as they are: where every product is usable, there are two stores at rest with the same
   declarations, one in which everything is ready and one in which whatever reaches a cycle waits.
   */
  lemma {:induction false} CyclesHaveTwoRests(s: Store, c: Settings, local: map<Key, LocalState>)
    returns (ready: Store, waiting: Store)
    requires WellKeyed(s) && !c.composition && AllUsable(s, local)
    ensures SameDeclarations(s, ready) && AtRest(ready, c, local) && SameDeclarations(s, waiting) &&
            AtRest(waiting, c, local)
    ensures forall k :: k in s ==> k in ready && IsReady(ready[k])
    ensures forall k :: k in s ==> k in waiting && (IsReady(waiting[k]) <==> !ReachesCycle(s, k))
  {
    hide *;
    ready, waiting := Marked(s, local, true), Marked(s, local, false);
    MarkedDeclares(s, local, true);
    MarkedDeclares(s, local, false);
    MarkedAtRest(s, c, local, true);
    MarkedAtRest(s, c, local, false);
  }

  lemma {:induction false} MarkedAtRest(s: Store, c: Settings, local: map<Key, LocalState>, cycles: bool)
    requires WellKeyed(s) && !c.composition && AllUsable(s, local)
    ensures AtRest(Marked(s, local, cycles), c, local)
  {
    MarkedDeclares(s, local, cycles);
    hide Marked, AllUsable, UpToDate, WellKeyed;
    var m := Marked(s, local, cycles);
    forall k {:trigger m[k]} | k in m
      ensures UpToDate(m, local, c, k)
    {
      MarkedRests(s, c, local, cycles, k);
    }
  }

  /** Some store at rest with these declarations has the product ready, or not, as given. */
  ghost predicate CanRest(s: Store, c: Settings, local: map<Key, LocalState>, root: Key, ready: bool)
  {
    exists a :: SameDeclarations(s, a) && AtRest(a, c, local) && root in a && (IsReady(a[root]) <==> ready)
  }

  /**
   Without composition, where every product is usable, readiness at rest is determined by the declarations exactly
   for the products that reach no cycle.
   */
  lemma {:induction false} RestIsUniqueWithoutCycles(s: Store, c: Settings, local: map<Key, LocalState>, root: Key)
    requires WellKeyed(s) && !c.composition && AllUsable(s, local) && root in s
    ensures CanRest(s, c, local, root, true)
    ensures CanRest(s, c, local, root, false) <==> ReachesCycle(s, root)
  {
    var ready, waiting := CyclesHaveTwoRests(s, c, local);
    hide SameDeclarations, AtRest, IsReady, ReachesCycle, AllUsable, WellKeyed;
    assert CanRest(s, c, local, root, true);
    if ReachesCycle(s, root) {
      assert !IsReady(waiting[root]);
    } else if CanRest(s, c, local, root, false) {
      var a :| SameDeclarations(s, a) && AtRest(a, c, local) && root in a && !IsReady(a[root]);
      SameAsReady(s, a, ready, c, local, root);
      assert false;
    }
  }

  lemma {:induction false} SameAsReady(s: Store, a: Store, ready: Store, c: Settings, local: map<Key, LocalState>,
                                       root: Key)
    requires SameDeclarations(s, a) && SameDeclarations(s, ready) && AtRest(a, c, local) && AtRest(ready, c, local)
    requires !c.composition && root in a && root in ready && !ReachesCycle(s, root)
    ensures IsReady(a[root]) <==> IsReady(ready[root])
  {
    DeclarationsFlip(s, a);
    DeclarationsMeet(s, a, ready);
    hide SameDeclarations, AtRest, IsReady, ReachesCycle;
    DirectReadinessIsUnique(a, ready, c, local, root);
  }

  lemma {:induction false} DeclarationsMeet(s: Store, a: Store, b: Store)
    requires SameDeclarations(s, a) && SameDeclarations(s, b)
    ensures SameDeclarations(a, b)
  {
  }

  // ---------------------------------------------------------------- an instance

  const LeftKey := Key("ns", "left")
  const RightKey := Key("ns", "right")

  function OnOther(name: string, other: string): Product
  {
    Product(Key("ns", name), "v1.0.0", [Input("in", Reference("", other, "out"), None)], [Output("out", "OpenAPI")],
            Declares(false, false, false, false), 1, false, NoStatus)
  }

  /** Two products that depend on each other. */
  const Mutual: Store := map[LeftKey := OnOther("left", "right"), RightKey := OnOther("right", "left")]

  /** The case exists: each of two admitted products is usable and reaches a cycle. */
  lemma {:induction false} MutualReachesCycle(local: map<Key, LocalState>)
    ensures WellKeyed(Mutual) && AllUsable(Mutual, local) && LeftKey in Mutual && ReachesCycle(Mutual, LeftKey)
  {
    var left, right := Mutual[LeftKey], Mutual[RightKey];
    assert LeftKey != RightKey && left == OnOther("left", "right") && right == OnOther("right", "left");
    MutualUsable(local);
    assert Target(LeftKey, left.inputs[0]) == RightKey && Target(RightKey, right.inputs[0]) == LeftKey;
    assert RightKey in Targets(left) && LeftKey in Targets(right);
    hide Targets, Usable;
    var g := Adjacency(Mutual);
    assert RightKey in Succ(g, LeftKey) && LeftKey in Succ(g, RightKey);
    assert Walk(g, LeftKey, LeftKey, 0) && Walk(g, RightKey, LeftKey, 1) && Walk(g, LeftKey, LeftKey, 2);
    assert Reachable(Mutual, LeftKey, LeftKey);
  }

  lemma {:induction false} MutualUsable(local: map<Key, LocalState>)
    ensures WellKeyed(Mutual) && AllUsable(Mutual, local)
  {
    assert LeftKey != RightKey && Mutual.Keys == {LeftKey, RightKey};
    forall k {:trigger Usable(Mutual, local, k)} | k in Mutual
      ensures Usable(Mutual, local, k)
    {
      var p := Mutual[k];
      var t := Target(p.key, p.inputs[0]);
      assert t in Mutual && Mutual[t].outputs[0].name == "out";
      assert Supplied(Mutual, p, p.inputs[0]);
    }
  }
}
