/**
 With composition enabled, recorded statuses converge: once declarations and local states stop changing, a bounded
 number of rounds in which nobody is passed over brings every product to rest, on any graph.
 */
module Convergence {
  import opened Products
  import opened Compatibility
  import opened Digraph
  import opened Composition
  import opened CompositionTheorems
  import opened Reconcile
  import opened WorkQueue
  import opened Readiness
  import Order

  // ---------------------------------------------------------------- calm runs

  /** A step that changes no declaration and no local state, and in which no read fails. */
  predicate CalmStep(step: Step)
  {
    match step
    case PutStep(_, _) => false
    case DeleteStep(_, _) => false
    case DriftStep(_, _) => false
    case FireStep(_) => true
    case BeginStep(_) => true
    case CommitStep(_, r, _, listed) => Quiet(r) && listed
    case PauseStep => true
  }

  ghost predicate CalmFrom(steps: seq<Step>, a: nat)
  {
    forall i {:trigger steps[i]} :: a <= i < |steps| ==> CalmStep(steps[i])
  }

  /** Between i and j a run for k begins and a run for k ends. */
  ghost predicate Served(steps: seq<Step>, k: Key, i: nat, j: nat)
    requires j <= |steps|
  {
    exists m, n {:trigger steps[m], steps[n]} :: i <= m < n < j &&
      steps[m] == BeginStep(k) && steps[n].CommitStep? && steps[n].k == k
  }

  /** Queued, being processed, or waiting for a timer. */
  ghost predicate Outstanding(sys: System, k: Key)
  {
    k in sys.store && (k in sys.queue || k in sys.running || k in sys.timers)
  }

  /** Between i and j either a whole run for k takes place, or nothing is outstanding for k at some point. */
  ghost predicate Attended(states: seq<System>, steps: seq<Step>, k: Key, i: nat, j: nat)
    requires i <= j < |states| == |steps| + 1
  {
    Served(steps, k, i, j) || exists m {:trigger states[m]} :: i <= m <= j && !Outstanding(states[m], k)
  }

  /** Nobody is passed over between i and j. */
  ghost predicate FairRound(states: seq<System>, steps: seq<Step>, i: nat, j: nat)
    requires i <= j < |states| == |steps| + 1
  {
    forall k {:trigger Attended(states, steps, k, i, j)} :: k in states[i].store ==> Attended(states, steps, k, i, j)
  }

  // ---------------------------------------------------------------- what a run finds, by readiness alone

  ghost predicate SameReadiness(a: Store, b: Store)
  {
    SameDeclarations(a, b) && forall k {:trigger a[k]} {:trigger b[k]} :: k in a ==>
      (ProducerReady(a[k]) <==> ProducerReady(b[k]))
  }

  /** The same product up to the details of its status. */
  ghost predicate Alike(p: Product, q: Product)
  {
    p.(status := NoStatus) == q.(status := NoStatus) && (ProducerReady(p) <==> ProducerReady(q))
  }

  ghost predicate WalkedAlike(g: Walked, h: Walked)
  {
    && h == g.(products := h.products)
    && g.products.Keys == h.products.Keys
    && forall k {:trigger g.products[k]} {:trigger h.products[k]} :: k in g.products ==>
       Alike(g.products[k], h.products[k])
  }

  lemma {:induction false} FetchAlike(a: Store, b: Store, g: Walked, h: Walked, key: Key)
    requires SameReadiness(a, b) && WalkedAlike(g, h)
    ensures var (g', x) := Fetch(Quieted(a), g, key);
            var (h', y) := Fetch(Quieted(b), h, key);
            x == y && WalkedAlike(g', h')
  {
    hide SameReadiness, Alike, Quieted;
    assert |g.products| == |g.products.Keys| == |h.products.Keys| == |h.products|;
    AlikeThere(a, b, key);
    QuietedIs(a);
    QuietedIs(b);
  }

  lemma {:induction false} QuietedIs(s: Store)
    ensures Quieted(s).store == s && Quieted(s).failing == {} && Quieted(s).deadline.None?
  {
  }

  lemma {:induction false} VisitAlike(a: Store, b: Store, g: Walked, h: Walked, p: Product, q: Product, depth: nat)
    requires SameReadiness(a, b) && WalkedAlike(g, h) && Alike(p, q)
    ensures var (g', x) := Visit(Quieted(a), g, p, depth);
            var (h', y) := Visit(Quieted(b), h, q, depth);
            x == y && WalkedAlike(g', h')
    decreases Remaining(depth), 2, 0
  {
    hide *;
    AlikeFields(p, q);
    WalkedFields(g, h, p.key, p.key);
    VisitUnfolds(a, g, p, depth);
    VisitUnfolds(b, h, q, depth);
    TickAlike(g, h);
    OpenAlike(g, h, p, q);
    if depth < MAX_DEPTH {
      VisitInputsAlike(a, b, OpenOf(g, p), OpenOf(h, q), p, q, depth, 0);
      var (done, reason) := VisitInputs(Quieted(a), OpenOf(g, p), p, depth, 0);
      var (end, _) := VisitInputs(Quieted(b), OpenOf(h, q), q, depth, 0);
      CloseAlike(done, end, p.key, reason == NoReason);
    }
  }

  function TickOf(g: Walked): Walked
  {
    g.(clock := g.clock + 1)
  }

  function OpenOf(g: Walked, p: Product): Walked
  {
    g.(clock := g.clock + 1, edges := g.edges + |p.inputs|, visiting := g.visiting + {p.key})
  }

  function CloseOf(done: Walked, key: Key, finished: bool): Walked
  {
    done.(visiting := done.visiting - {key}, visited := if finished then done.visited + {key} else done.visited)
  }

  /** The activation of a product, by its parts; without a deadline it never expires. */
  lemma {:induction false} VisitUnfolds(s: Store, g: Walked, p: Product, depth: nat)
    ensures Visit(Quieted(s), g, p, depth) ==
            if p.key in g.visiting then (TickOf(g), DependencyCycle)
            else if p.key in g.visited then
              (TickOf(g), if depth + Height(g, p.key) >= MAX_DEPTH then CompositionLimitExceeded else NoReason)
            else if depth >= MAX_DEPTH || g.edges + |p.inputs| > MAX_EDGES then (TickOf(g), CompositionLimitExceeded)
            else
              var (done, reason) := VisitInputs(Quieted(s), OpenOf(g, p), p, depth, 0);
              (CloseOf(done, p.key, reason == NoReason), reason)
  {
    hide VisitInputs, Height;
  }

  lemma {:induction false} TickAlike(g: Walked, h: Walked)
    requires WalkedAlike(g, h)
    ensures WalkedAlike(TickOf(g), TickOf(h))
    ensures g.visiting == h.visiting && g.visited == h.visited && g.edges == h.edges
  {
    hide Alike;
  }

  lemma {:induction false} OpenAlike(g: Walked, h: Walked, p: Product, q: Product)
    requires WalkedAlike(g, h) && p.key == q.key && p.inputs == q.inputs
    ensures WalkedAlike(OpenOf(g, p), OpenOf(h, q))
  {
    hide Alike;
  }

  lemma {:induction false} CloseAlike(g: Walked, h: Walked, key: Key, finished: bool)
    requires WalkedAlike(g, h)
    ensures WalkedAlike(CloseOf(g, key, finished), CloseOf(h, key, finished))
  {
    hide Alike;
  }

  lemma {:induction false} VisitInputsAlike(a: Store, b: Store, g: Walked, h: Walked, p: Product, q: Product,
                                            depth: nat, i: nat)
    requires SameReadiness(a, b) && WalkedAlike(g, h) && Alike(p, q) && depth < MAX_DEPTH &&
             i <= |p.inputs| == |q.inputs|
    ensures var (g', x) := VisitInputs(Quieted(a), g, p, depth, i);
            var (h', y) := VisitInputs(Quieted(b), h, q, depth, i);
            x == y && WalkedAlike(g', h')
    decreases Remaining(depth), 1, |p.inputs| - i
  {
    hide VisitInput, SameReadiness, WalkedAlike, ProducerReady;
    if i < |p.inputs| {
      assert p.inputs[i] == q.inputs[i];
      VisitInputAlike(a, b, g, h, p, q, depth, i);
      var (next, reason) := VisitInput(Quieted(a), g, p, depth, p.inputs[i]);
      var (other, _) := VisitInput(Quieted(b), h, q, depth, q.inputs[i]);
      if reason == NoReason {
        VisitInputsAlike(a, b, next, other, p, q, depth, i + 1);
      }
    }
  }

  lemma {:induction false} VisitInputAlike(a: Store, b: Store, g: Walked, h: Walked, p: Product, q: Product, depth: nat,
                                           i: nat)
    requires SameReadiness(a, b) && WalkedAlike(g, h) && Alike(p, q) && depth < MAX_DEPTH &&
             i < |p.inputs| == |q.inputs|
    requires p.inputs[i] == q.inputs[i]
    ensures var (g', x) := VisitInput(Quieted(a), g, p, depth, p.inputs[i]);
            var (h', y) := VisitInput(Quieted(b), h, q, depth, q.inputs[i]);
            x == y && WalkedAlike(g', h')
    decreases Remaining(depth), 0, 0
  {
    hide *;
    AlikeFields(p, q);
    DeeperRemains(depth);
    var input := p.inputs[i];
    var key := Target(p.key, input);
    FetchAlike(a, b, g, h, key);
    InputUnfolds(Quieted(a), g, p, depth, input);
    InputUnfolds(Quieted(b), h, q, depth, input);
    var (found, reason) := Fetch(Quieted(a), g, key);
    var (other, _) := Fetch(Quieted(b), h, key);
    if key.ns == p.key.ns && reason == NoReason {
      WalkedProducts(found, other, key);
      var producer, same := found.products[key], other.products[key];
      VisitAlike(a, b, found, other, producer, same, depth + 1);
      CompatibilityAlike(input, producer, same);
      var (below, stop) := Visit(Quieted(a), found, producer, depth + 1);
      var (beside, _) := Visit(Quieted(b), other, same, depth + 1);
      AfterAlike(below, beside, stop, p.key, key, InputCompatibility(input, producer), ProducerReady(producer));
    }
  }

  lemma {:induction false} DeeperRemains(depth: nat)
    requires depth < MAX_DEPTH
    ensures Remaining(depth + 1) < Remaining(depth)
  {
  }

  /** What follows the search below one input. */
  function AfterInput(below: Walked, stop: Reason, consumer: Key, key: Key, mismatch: Reason,
                      ready: bool): (Walked, Reason)
  {
    if stop != NoReason then (below, stop)
    else
      var raised := below.(heights := below.heights[consumer := Max(Height(below, consumer), 1 + Height(below, key))]);
      if mismatch != NoReason then (raised, mismatch)
      else (raised.(notReady := if !ready && raised.notReady.None? then Some(key) else raised.notReady), NoReason)
  }

  lemma {:induction false} InputUnfolds(r: Reader, g: Walked, p: Product, depth: nat, input: Input)
    requires depth < MAX_DEPTH
    ensures var key := Target(p.key, input);
            var (found, reason) := Fetch(r, g, key);
            VisitInput(r, g, p, depth, input) ==
            if key.ns != p.key.ns then (g, CrossNamespaceDependencyDenied)
            else if reason != NoReason then (found, reason)
            else
              var producer := found.products[key];
              var (below, stop) := Visit(r, found, producer, depth + 1);
              AfterInput(below, stop, p.key, key, InputCompatibility(input, producer), ProducerReady(producer))
  {
    hide Visit, Fetch, InputCompatibility, ProducerReady, Height, Target;
  }

  lemma {:induction false} AfterAlike(g: Walked, h: Walked, stop: Reason, consumer: Key, key: Key, mismatch: Reason,
                                      ready: bool)
    requires WalkedAlike(g, h)
    ensures var (g', x) := AfterInput(g, stop, consumer, key, mismatch, ready);
            var (h', y) := AfterInput(h, stop, consumer, key, mismatch, ready);
            x == y && WalkedAlike(g', h')
  {
    WalkedFields(g, h, key, consumer);
    var heights := g.heights[consumer := Max(Height(g, consumer), 1 + Height(g, key))];
    WalkedUpdate(g, h, heights, g.notReady);
    WalkedUpdate(g, h, heights, Some(key));
    hide WalkedAlike, Height;
  }

  lemma {:induction false} WalkedProducts(g: Walked, h: Walked, key: Key)
    requires WalkedAlike(g, h) && key in g.products
    ensures key in h.products && Alike(g.products[key], h.products[key])
    ensures ProducerReady(g.products[key]) <==> ProducerReady(h.products[key])
  {
    hide ProducerReady;
  }

  lemma {:induction false} WalkedFields(g: Walked, h: Walked, x: Key, y: Key)
    requires WalkedAlike(g, h)
    ensures g.heights == h.heights && g.notReady == h.notReady
    ensures Height(g, x) == Height(h, x) && Height(g, y) == Height(h, y)
  {
    hide Alike;
  }

  lemma {:induction false} WalkedUpdate(g: Walked, h: Walked, heights: map<Key, nat>, notReady: Option<Key>)
    requires WalkedAlike(g, h)
    ensures WalkedAlike(g.(heights := heights, notReady := notReady), h.(heights := heights, notReady := notReady))
    ensures g.notReady == notReady ==> WalkedAlike(g.(heights := heights), h.(heights := heights))
  {
    hide Alike;
  }

  lemma {:induction false} CompatibilityAlike(input: Input, p: Product, q: Product)
    requires Alike(p, q)
    ensures InputCompatibility(input, p) == InputCompatibility(input, q)
  {
    hide ProducerReady;
  }

  lemma {:induction false} RecordedAlike(g: Walked, h: Walked, p: Product, q: Product)
    requires WalkedAlike(g, h) && Alike(p, q)
    ensures RecordedInputs(g, p) == RecordedInputs(h, q)
  {
    hide ProducerReady, InputCompatibility, FindOutput;
    assert p.key == q.key && p.inputs == q.inputs;
    forall i | 0 <= i < |p.inputs|
      ensures RecordedInput(g, p, p.inputs[i]) == RecordedInput(h, q, q.inputs[i])
    {
      var key := Target(p.key, p.inputs[i]);
      if key in g.products {
        assert Alike(g.products[key], h.products[key]);
        CompatibilityAlike(p.inputs[i], g.products[key], h.products[key]);
      }
    }
  }

  /** With composition, a run depends on declarations and on who is ready, and on nothing else of any status. */
  lemma {:induction false} RunAlike(a: Store, b: Store, c: Settings, l: LocalState, p: Product, q: Product)
    requires c.composition && SameReadiness(a, b) && Alike(p, q)
    ensures Run(Quieted(a), c, l, p) == Run(Quieted(b), c, l, q)
  {
    ComposeAlike(a, b, c, p, q);
    AlikeFields(p, q);
    hide SameReadiness, Alike, Compose, FirstDirectIssue;
    DirectUnused(a, c, p);
    DirectUnused(b, c, q);
  }

  lemma {:induction false} AlikeFields(p: Product, q: Product)
    requires Alike(p, q)
    ensures p.key == q.key && p.inputs == q.inputs && p.declares == q.declares && p.generation == q.generation
  {
    hide ProducerReady;
  }

  lemma {:induction false} DirectUnused(s: Store, c: Settings, p: Product)
    requires c.composition
    ensures Compose(Quieted(s), c, p).condition.Some? || FirstDirectIssue(Quieted(s), p, 0) == NoReason
  {
    if p.inputs != [] {
      EnabledCondition(Quieted(s), c, p);
    }
  }

  lemma {:induction false} ComposeAlike(a: Store, b: Store, c: Settings, p: Product, q: Product)
    requires c.composition && SameReadiness(a, b) && Alike(p, q)
    ensures Compose(Quieted(a), c, p) == Compose(Quieted(b), c, q)
  {
    hide SameReadiness, ProducerReady, RecordedInputs, Bytes, FirstUnready, Order.Sort, Visit;
    assert WalkedAlike(Start(p), Start(q));
    VisitAlike(a, b, Start(p), Start(q), p, q, 0);
    var g, h := Check(Quieted(a), p).0, Check(Quieted(b), q).0;
    RecordedAlike(g, h, p, q);
  }

  // ---------------------------------------------------------------- what a run finds, from below

  lemma {:induction false} QuietComposed(r: Reader, c: Settings, l: LocalState, p: Product)
    requires Quiet(r) && c.composition
    ensures !Run(r, c, l, p).failed && !Run(r, c, l, p).hidden
  {
    QuietVisit(r, Start(p), p, 0);
    QuietCompose(r, c, p);
    hide Compose, Visit, DirectIssue;
    if p.inputs == [] {
      assert FirstDirectIssue(r, p, 0) == NoReason;
    } else {
      EnabledCondition(r, c, p);
    }
    hide FirstDirectIssue;
  }

  lemma {:induction false} EnabledCondition(r: Reader, c: Settings, p: Product)
    requires c.composition && p.inputs != []
    ensures Compose(r, c, p).condition.Some?
  {
    hide ComposedFrom, Check;
  }

  /** With composition, a run that reads without failures is a run over its view. */
  lemma {:induction false} QuietIsQuieted(r: Reader, c: Settings, l: LocalState, p: Product)
    requires Quiet(r) && c.composition && WellKeyed(r.store) && p.key in r.store && r.store[p.key] == p
    ensures Run(r, c, l, p) == Run(Quieted(r.store), c, l, p)
  {
    QuietComposed(r, c, l, p);
    AgreeReflexive(r.store, true, p.key);
    hide Run, AgreeOn;
    RunFrame(r, r.store, c, l, p);
  }

  /** Below k, exactly the healthy products are recorded as ready. */
  ghost predicate RightBelow(s: Store, c: Settings, local: map<Key, LocalState>, k: Key)
  {
    forall x, n: nat {:trigger Walk(Adjacency(s), k, x, n)} :: n > 0 && Walk(Adjacency(s), k, x, n) && x in s ==>
      (IsReady(s[x]) <==> Healthy(s, c, local, x))
  }

  /** What a run records as readiness. */
  ghost predicate Readying(status: Status, generation: nat)
  {
    status.ready.Some? && status.ready.value.status && status.ready.value.generation == generation
  }

  lemma {:induction false} ComputedReady(s: Store, c: Settings, l: LocalState, p: Product)
    requires WellKeyed(s) && c.composition && p.key in s && s[p.key] == p
    ensures Readying(Run(Quieted(s), c, l, p).status, p.generation) <==>
              && LocallyReady(p, l)
              && (p.inputs != [] ==> Acceptable(s, p.key) && ProducersReady(s, p.key) && Fits(s, c, p))
  {
    if p.inputs != [] {
      ComposeReady(s, c, p);
    }
    QuietRun(s, c, l, p);
    RunReady(s, c, l, p);
    hide Run, Acceptable, ProducersReady, Fits, LocallyReady;
  }

  /** Where the products below are right, a run finds exactly the healthy ready. */
  lemma {:induction false} ComputedRight(s: Store, c: Settings, local: map<Key, LocalState>, k: Key)
    requires WellKeyed(s) && c.composition && k in s && (Acceptable(s, k) ==> RightBelow(s, c, local, k))
    ensures Readying(Run(Quieted(s), c, LocalOf(local, k), s[k]).status, s[k].generation) <==> Healthy(s, c, local, k)
  {
    var p := s[k];
    assert p.key == k;
    hide Run, Acceptable, ProducersReady, Fits, LocallyReady, RightBelow, WellKeyed, Healthy;
    ComputedReady(s, c, LocalOf(local, k), p);
    if p.inputs == [] {
      LeafAcceptable(s, k);
      LeafFits(s, c, p);
      LeafProducers(s, k);
    }
    if Acceptable(s, k) && ProducersReady(s, k) && Fits(s, c, p) && LocallyReady(p, LocalOf(local, k)) {
      FromBelow(s, c, local, k);
    }
    if Healthy(s, c, local, k) {
      HealthyIsAcceptable(s, c, local, k);
      ToAbove(s, c, local, k);
    }
  }

  lemma {:induction false} HealthyIsAcceptable(s: Store, c: Settings, local: map<Key, LocalState>, k: Key)
    requires Healthy(s, c, local, k)
    ensures Acceptable(s, k)
  {
    hide Acceptable, Sane;
  }

  lemma {:induction false} LeafProducers(s: Store, k: Key)
    requires k in s && s[k].inputs == [] && forall x :: Reachable(s, k, x) ==> x == k
    ensures ProducersReady(s, k)
  {
    hide Reachable, ProducerReady;
    assert Targets(s[k]) == {};
  }

  lemma {:induction false} FromBelow(s: Store, c: Settings, local: map<Key, LocalState>, k: Key)
    requires WellKeyed(s) && k in s && RightBelow(s, c, local, k)
    requires Acceptable(s, k) && ProducersReady(s, k) && Fits(s, c, s[k]) && LocallyReady(s[k], LocalOf(local, k))
    ensures Healthy(s, c, local, k)
  {
    hide Acceptable, ProducersReady, Fits, LocallyReady;
    forall x | Reachable(s, k, x)
      ensures x in s && Sane(s, c, local, k, x)
    {
      AcceptableHolds(s, k, x);
      if x != k {
        var n: nat :| Walk(Adjacency(s), k, x, n);
        assert n > 0;
        var m := LastEdge(Adjacency(s), k, x, n);
        ProducerIsReady(s, k, m, x, n - 1);
        assert Healthy(s, c, local, x);
        ReachesItself(Adjacency(s), x);
        assert Reachable(s, x, x) && Sane(s, c, local, x, x);
      }
    }
  }

  lemma {:induction false} ToAbove(s: Store, c: Settings, local: map<Key, LocalState>, k: Key)
    requires WellKeyed(s) && k in s && RightBelow(s, c, local, k) && Healthy(s, c, local, k)
    ensures Acceptable(s, k) && ProducersReady(s, k) && Fits(s, c, s[k]) && LocallyReady(s[k], LocalOf(local, k))
  {
    hide Acceptable, Fits, LocallyReady;
    ReachesItself(Adjacency(s), k);
    assert Reachable(s, k, k) && Sane(s, c, local, k, k);
    forall m, t | Reachable(s, k, m) && m in s && t in Targets(s[m]) && t in s
      ensures ProducerReady(s[t])
    {
      assert s[m].key == m && t in Succ(Adjacency(s), m);
      HealthyBelow(s, c, local, k, m, t);
      var n: nat :| Walk(Adjacency(s), k, m, n);
      Extend(Adjacency(s), k, m, t, n);
      assert Walk(Adjacency(s), k, t, n + 1);
    }
  }

  // ---------------------------------------------------------------- along a calm run

  /** What does not change while the run is calm. */
  lemma {:induction false} CalmKeeps(states: seq<System>, steps: seq<Step>, c: Settings, a: nat, i: nat)
    requires Behaviour(states, steps, c) && CalmFrom(steps, a) && a <= i < |states|
    ensures SameDeclarations(states[a].store, states[i].store) && states[i].local == states[a].local
    decreases i
  {
    if i > a {
      CalmKeeps(states, steps, c, a, i - 1);
      hide SameDeclarations, CalmFrom;
      assert Next(states[i - 1], states[i - 1 + 1], c, steps[i - 1]);
      assert CalmStep(steps[i - 1]) by {
        CalmAt(steps, a, i - 1);
      }
      CalmStepKeeps(states[i - 1], states[i], c, steps[i - 1]);
      DeclarationsJoin(states[a].store, states[i - 1].store, states[i].store);
    } else {
      DeclarationsSame(states[a].store);
    }
  }

  lemma {:induction false} CalmAt(steps: seq<Step>, a: nat, i: nat)
    requires CalmFrom(steps, a) && a <= i < |steps|
    ensures CalmStep(steps[i])
  {
  }

  lemma {:induction false} DeclarationsSame(s: Store)
    ensures SameDeclarations(s, s)
  {
  }

  lemma {:induction false} DeclarationsJoin(a: Store, b: Store, d: Store)
    requires SameDeclarations(a, b) && SameDeclarations(b, d)
    ensures SameDeclarations(a, d) && SameDeclarations(b, a)
  {
  }

  lemma {:induction false} CalmStepKeeps(sys: System, next: System, c: Settings, step: Step)
    requires Next(sys, next, c, step) && CalmStep(step)
    ensures SameDeclarations(sys.store, next.store) && next.local == sys.local
    ensures forall k {:trigger next.store[k]} :: k in sys.store && !(step.CommitStep? && step.k == k) ==>
              k in next.store && next.store[k] == sys.store[k]
  {
    hide Run, Mixed, Requests, Quiet, Commit, Remember;
    match step
    case CommitStep(x, r, l, listed) =>
      CommitStores(sys, next, c, x, r, l, listed);
    case _ =>
  }

  /** A run changes at most the status of its own product. */
  lemma {:induction false} CommitStores(sys: System, next: System, c: Settings, x: Key, r: Reader, l: LocalState,
                                        listed: bool)
    requires Commit(sys, next, c, x, r, l, listed)
    ensures next.local == sys.local
    ensures next.store == sys.store
            || (x in sys.store && exists status :: next.store == sys.store[x := sys.store[x].(status := status)])
  {
    hide Run, Mixed, Requests, Remember;
    if x in r.store && x !in r.failing {
      var status := Run(r, c, l, r.store[x]).status;
    }
  }

  /** A run for k that began no earlier than b: all it may have read is from then on, with its own object as it is. */
  ghost predicate Young(states: seq<System>, b: nat, i: nat, k: Key)
    requires b <= i < |states|
  {
    k in states[i].running ==>
      && (forall m {:trigger states[i].running[k].stores[m]} :: 0 <= m < |states[i].running[k].stores| ==>
            && Same(states[i].store, states[i].running[k].stores[m], k)
            && exists j :: b <= j <= i && states[i].running[k].stores[m] == states[j].store)
      && forall l :: l in states[i].running[k].locals ==> l == LocalOf(states[i].local, k)
  }

  lemma {:induction false} YoungBegins(states: seq<System>, steps: seq<Step>, c: Settings, b: nat, i: nat, k: Key)
    requires Behaviour(states, steps, c) && b <= i < |steps| && steps[i] == BeginStep(k)
    ensures Young(states, b, i + 1, k)
  {
    hide Run, Init;
    assert Next(states[i], states[i + 1], c, steps[i]);
    assert states[i + 1].running[k] == Progress([states[i].store], [LocalOf(states[i].local, k)]);
  }

  lemma {:induction false} YoungStays(states: seq<System>, steps: seq<Step>, c: Settings, b: nat, i: nat, k: Key)
    requires Behaviour(states, steps, c) && b <= i < |steps| && CalmStep(steps[i])
    requires Young(states, b, i, k) && k in states[i].store
    ensures Young(states, b, i + 1, k)
  {
    hide Init, Young;
    assert Next(states[i], states[i + 1], c, steps[i]);
    match steps[i]
    case FireStep(x) => YoungUnchanged(states, b, i, k);
    case PauseStep => YoungUnchanged(states, b, i, k);
    case BeginStep(x) =>
      if x == k {
        YoungBegins(states, steps, c, b, i, k);
      } else {
        YoungUnchanged(states, b, i, k);
      }
    case CommitStep(x, r, l, listed) =>
      CommitRemembers(states[i], states[i + 1], c, x, r, l, listed, k);
      if x != k {
        if states[i + 1].running == Remember(states[i].running - {x}, states[i + 1].store) {
          YoungRemembers(states, b, i, x, k);
        } else {
          YoungUnchanged(states, b, i, k);
        }
      } else {
        YoungEnds(states, b, i, k);
      }
  }

  lemma {:induction false} YoungEnds(states: seq<System>, b: nat, i: nat, k: Key)
    requires b <= i < |states| - 1 && k !in states[i + 1].running
    ensures Young(states, b, i + 1, k)
  {
  }

  /** The end of a run for x changes at most x in the store, and the others remember the new store. */
  lemma {:induction false} CommitRemembers(sys: System, next: System, c: Settings, x: Key, r: Reader, l: LocalState,
                                           listed: bool, k: Key)
    requires Commit(sys, next, c, x, r, l, listed)
    ensures x !in next.running && next.local == sys.local
    ensures (next.store == sys.store && next.running == sys.running - {x})
            || next.running == Remember(sys.running - {x}, next.store)
    ensures k != x && k in sys.store ==> k in next.store && next.store[k] == sys.store[k]
  {
    hide Run, Mixed, Requests;
  }

  lemma {:induction false} YoungUnchanged(states: seq<System>, b: nat, i: nat, k: Key)
    requires b <= i < |states| - 1 && Young(states, b, i, k)
    requires k in states[i + 1].running ==> k in states[i].running && states[i + 1].running[k] == states[i].running[k]
    requires states[i + 1].store == states[i].store && states[i + 1].local == states[i].local
    ensures Young(states, b, i + 1, k)
  {
    hide Same;
  }

  lemma {:induction false} YoungRemembers(states: seq<System>, b: nat, i: nat, x: Key, k: Key)
    requires b <= i < |states| - 1 && Young(states, b, i, k) && x != k
    requires states[i + 1].running == Remember(states[i].running - {x}, states[i + 1].store)
    requires states[i + 1].local == states[i].local
    requires k in states[i].store && k in states[i + 1].store && states[i + 1].store[k] == states[i].store[k]
    ensures Young(states, b, i + 1, k)
  {
    if k in states[i + 1].running {
      var before, after := states[i].running[k].stores, states[i + 1].running[k].stores;
      assert after == before + [states[i + 1].store];
      forall m | 0 <= m < |after|
        ensures Same(states[i + 1].store, after[m], k)
        ensures exists j :: b <= j <= i + 1 && after[m] == states[j].store
      {
        if m < |before| {
          assert after[m] == before[m];
          assert Same(states[i].store, before[m], k);
        }
      }
    }
  }

  // ---------------------------------------------------------------- one round

  /** Every run for k that began at b or later leaves the product as wanted. */
  ghost predicate Achieves(states: seq<System>, steps: seq<Step>, b: nat, k: Key, goal: Product -> bool)
    requires |states| == |steps| + 1
  {
    forall i {:trigger steps[i]} ::
      (b <= i < |steps| && steps[i].CommitStep? && steps[i].k == k && Young(states, b, i, k) &&
       k in states[i + 1].store) ==>
        goal(states[i + 1].store[k])
  }

  lemma {:induction false} YoungAlong(states: seq<System>, steps: seq<Step>, c: Settings, b: nat, i: nat, j: nat,
                                      k: Key)
    requires Behaviour(states, steps, c) && CalmFrom(steps, b) && b <= i <= j < |states|
    requires k in states[i].store && Young(states, b, i, k)
    ensures k in states[j].store && Young(states, b, j, k)
    decreases j
  {
    hide Young, Init, Next, CalmStep;
    if i < j {
      YoungAlong(states, steps, c, b, i, j - 1, k);
      CalmAt(steps, b, j - 1);
      YoungStays(states, steps, c, b, j - 1, k);
      StepKeepsOthers(states, steps, c, j - 1, k);
    }
  }

  lemma {:induction false} StepKeepsOthers(states: seq<System>, steps: seq<Step>, c: Settings, i: nat, k: Key)
    requires Behaviour(states, steps, c) && i < |steps| && CalmStep(steps[i]) && k in states[i].store
    ensures k in states[i + 1].store
    ensures !(steps[i].CommitStep? && steps[i].k == k) ==> states[i + 1].store[k] == states[i].store[k]
  {
    hide Init, CalmStep;
    assert Next(states[i], states[i + 1], c, steps[i]);
    hide Next;
    CalmStepKeeps(states[i], states[i + 1], c, steps[i]);
  }

  /** Once the goal is reached and no older run is left, it stays. */
  lemma {:induction false} GoalStays(states: seq<System>, steps: seq<Step>, c: Settings, b: nat, i: nat, j: nat, k: Key,
                                     goal: Product -> bool)
    requires Behaviour(states, steps, c) && CalmFrom(steps, b) && b <= i <= j < |states|
    requires Achieves(states, steps, b, k, goal)
    requires k in states[i].store && Young(states, b, i, k) && goal(states[i].store[k])
    ensures k in states[j].store && goal(states[j].store[k])
    decreases j
  {
    hide Young, Init, Next, CalmStep;
    if i < j {
      GoalStays(states, steps, c, b, i, j - 1, k, goal);
      YoungAlong(states, steps, c, b, i, j - 1, k);
      CalmAt(steps, b, j - 1);
      StepKeepsOthers(states, steps, c, j - 1, k);
      var step := steps[j - 1];
      assert j - 1 + 1 == j;
    }
  }

  /** A product for which nothing is outstanding has the status a run would compute. */
  lemma {:induction false} NothingOutstanding(states: seq<System>, steps: seq<Step>, c: Settings, b: nat, m: nat,
                                              k: Key)
    requires Behaviour(states, steps, c) && c.composition && b <= m < |states| && k in states[m].store
    requires !Outstanding(states[m], k)
    ensures UpToDate(states[m].store, states[m].local, c, k) && Young(states, b, m, k)
  {
    hide Behaviour, Run;
    NoLostWakeups(states, steps, c, m, k);
  }

  /** A fair round brings every product to whatever all its runs achieve. */
  lemma {:induction false} RoundEstablishes(states: seq<System>, steps: seq<Step>, c: Settings, b: nat, e: nat, j: nat,
                                            k: Key,
                                            goal: Product -> bool)
    requires Behaviour(states, steps, c) && c.composition && CalmFrom(steps, b) && b <= e <= j < |states|
    requires FairRound(states, steps, b, e) && k in states[b].store && Achieves(states, steps, b, k, goal)
    requires forall m {:trigger states[m]} ::
               (b <= m <= e && k in states[m].store && UpToDate(states[m].store, states[m].local, c, k)) ==>
                 goal(states[m].store[k])
    ensures k in states[j].store && goal(states[j].store[k])
  {
    hide Young, Init, Next, CalmStep, UpToDate;
    assert Attended(states, steps, k, b, e);
    if Served(steps, k, b, e) {
      var m, n :| b <= m < n < e && steps[m] == BeginStep(k) && steps[n].CommitStep? && steps[n].k == k;
      DeclaredAt(states, steps, c, b, m + 1, k);
      YoungBegins(states, steps, c, b, m, k);
      YoungAlong(states, steps, c, b, m + 1, n, k);
      CalmAt(steps, b, n);
      StepKeepsOthers(states, steps, c, n, k);
      assert goal(states[n + 1].store[k]);
      YoungAlong(states, steps, c, b, m + 1, n + 1, k);
      GoalStays(states, steps, c, b, n + 1, j, k, goal);
    } else {
      var m :| b <= m <= e && !Outstanding(states[m], k);
      DeclaredAt(states, steps, c, b, m, k);
      NothingOutstanding(states, steps, c, b, m, k);
      GoalStays(states, steps, c, b, m, j, k, goal);
    }
  }

  lemma {:induction false} DeclaredAt(states: seq<System>, steps: seq<Step>, c: Settings, a: nat, i: nat, k: Key)
    requires Behaviour(states, steps, c) && CalmFrom(steps, a) && a <= i < |states|
    ensures k in states[a].store <==> k in states[i].store
  {
    hide Behaviour, CalmFrom;
    CalmKeeps(states, steps, c, a, i);
  }

  // ---------------------------------------------------------------- what one run leaves behind

  /** The view shows x as one of the stores between b and i does. */
  ghost predicate Seen(states: seq<System>, b: nat, i: nat, view: Store, x: Key)
    requires b <= i < |states|
  {
    exists j :: b <= j <= i && Same(view, states[j].store, x)
  }

  /** Every key was read from one of the stores between b and i. */
  ghost predicate Viewed(states: seq<System>, b: nat, i: nat, view: Store)
    requires b <= i < |states|
  {
    forall x :: Seen(states, b, i, view, x)
  }

  /** A run that began at b or later records what a run over some view of the stores since then computes. */
  lemma {:induction false} CommitComputes(states: seq<System>, steps: seq<Step>, c: Settings, b: nat, i: nat, k: Key)
    returns (view: Store)
    requires Behaviour(states, steps, c) && c.composition && b <= i < |steps| && CalmStep(steps[i])
    requires steps[i].CommitStep? && steps[i].k == k && Young(states, b, i, k) && k in states[i].store
    ensures WellKeyed(view) && Viewed(states, b, i, view)
    ensures k in view && view[k] == states[i].store[k] && k in states[i + 1].store
    ensures states[i + 1].store[k] ==
            view[k].(status := Run(Quieted(view), c, LocalOf(states[i].local, k), view[k]).status)
  {
    var sys, next := states[i], states[i + 1];
    InvAlways(states, steps, c, i);
    assert Next(sys, next, c, steps[i]) && InvAt(sys, c, k);
    hide Init, Next, InvAt, Run, UpToDate, AgreeOn;
    var r, l := steps[i].r, steps[i].l;
    view := r.store;
    YoungViews(states, c, b, i, k, view, l, next, r, steps[i].listed);
    assert view[k].key == k;
    QuietIsQuieted(r, c, l, view[k]);
    QuietComposed(r, c, l, view[k]);
    CommitWrites(sys, next, c, k, r, l, steps[i].listed);
  }

  lemma {:induction false} YoungViews(states: seq<System>, c: Settings, b: nat, i: nat, k: Key, view: Store,
                                      l: LocalState,
                                      next: System, r: Reader, listed: bool)
    requires b <= i < |states| && Young(states, b, i, k) && InvAt(states[i], c, k) && k in states[i].store
    requires Commit(states[i], next, c, k, r, l, listed) && view == r.store
    ensures WellKeyed(view) && Viewed(states, b, i, view) && k in view && view[k] == states[i].store[k]
    ensures l == LocalOf(states[i].local, k)
  {
    hide Run, UpToDate, AgreeOn, Requests;
    var stores := states[i].running[k].stores;
    MixedKeyed(view, stores);
    MixedSame(states[i].store, view, stores, k);
    ViewedFrom(states, b, i, view, stores);
  }

  lemma {:induction false} ViewedFrom(states: seq<System>, b: nat, i: nat, view: Store, stores: seq<Store>)
    requires b <= i < |states| && Mixed(view, stores)
    requires forall m {:trigger stores[m]} :: 0 <= m < |stores| ==>
               exists j :: b <= j <= i && stores[m] == states[j].store
    ensures Viewed(states, b, i, view)
  {
    forall x
      ensures Seen(states, b, i, view, x)
    {
      assert Held(view, stores, x);
      var m :| 0 <= m < |stores| && Same(view, stores[m], x);
      var j :| b <= j <= i && stores[m] == states[j].store;
      assert Same(view, states[j].store, x);
    }
  }

  lemma {:induction false} CommitWrites(sys: System, next: System, c: Settings, k: Key, r: Reader, l: LocalState,
                                        listed: bool)
    requires Commit(sys, next, c, k, r, l, listed) && k in sys.store && k in r.store && r.store[k] == sys.store[k]
    requires r.failing == {} && !Run(r, c, l, r.store[k]).failed
    ensures k in next.store && next.store[k] == sys.store[k].(status := Run(r, c, l, r.store[k]).status)
  {
    hide Run, Mixed, Requests;
  }

  // ---------------------------------------------------------------- readiness converges

  /** Chains below k, if its graph is acceptable, have at most t edges. */
  ghost predicate Low(s: Store, k: Key, t: nat)
  {
    Acceptable(s, k) ==> forall x, n: nat :: Walk(Adjacency(s), k, x, n) ==> n <= t
  }

  /** The recorded readiness is the health of the declarations at a. */
  ghost predicate RightAt(states: seq<System>, c: Settings, a: nat, i: nat, k: Key)
    requires a < |states| && i < |states|
  {
    k in states[i].store && (IsReady(states[i].store[k]) <==> Healthy(states[a].store, c, states[a].local, k))
  }

  /** From b on, all low products are right. */
  ghost predicate RightFrom(states: seq<System>, c: Settings, a: nat, b: nat, t: int)
    requires a < |states|
  {
    forall i, k {:trigger RightAt(states, c, a, i, k)} ::
      b <= i < |states| && k in states[a].store && t >= 0 && Low(states[a].store, k, t) ==>
      RightAt(states, c, a, i, k)
  }

  lemma {:induction false} AcceptableDeclared(a: Store, b: Store, k: Key)
    requires SameDeclarations(a, b) && Acceptable(a, k)
    ensures Acceptable(b, k)
  {
    AdjacencyDeclared(a, b);
    assert forall x :: Reachable(a, k, x) <==> Reachable(b, k, x);
    assert ReachSet(a, k) == ReachSet(b, k);
    forall x | Reachable(b, k, x)
      ensures x in b && InputsMatch(b, b[x])
    {
      assert Reachable(a, k, x) && InputsMatch(a, a[x]);
      InputsDeclared(a, b, x);
    }
  }

  lemma {:induction false} InputsDeclared(a: Store, b: Store, x: Key)
    requires SameDeclarations(a, b) && x in a && InputsMatch(a, a[x])
    ensures x in b && InputsMatch(b, b[x])
  {
    var p, q := a[x], b[x];
    assert p.(status := NoStatus) == q.(status := NoStatus);
    hide InputCompatibility;
    forall i | 0 <= i < |q.inputs|
      ensures Matches(b, q.key, q.inputs[i])
    {
      assert Matches(a, p.key, p.inputs[i]);
      var t := Target(p.key, p.inputs[i]);
      assert a[t].(status := NoStatus) == b[t].(status := NoStatus);
      MatchDeclared(p.inputs[i], a[t], b[t]);
    }
  }

  /** A view of calm stores declares what they declare, and shows low products as they are: right. */
  lemma {:induction false} ViewDeclares(states: seq<System>, steps: seq<Step>, c: Settings, a: nat, b: nat, i: nat,
                                        view: Store)
    requires Behaviour(states, steps, c) && CalmFrom(steps, a) && a <= b <= i < |states| && Viewed(states, b, i, view)
    ensures SameDeclarations(states[a].store, view)
  {
    hide Behaviour, CalmFrom;
    var s := states[a].store;
    forall x
      ensures x in s <==> x in view
      ensures x in s ==> s[x].(status := NoStatus) == view[x].(status := NoStatus)
    {
      ViewedAt(states, steps, c, a, b, i, view, x);
    }
  }

  lemma {:induction false} ViewedAt(states: seq<System>, steps: seq<Step>, c: Settings, a: nat, b: nat, i: nat,
                                    view: Store, x: Key)
    requires Behaviour(states, steps, c) && CalmFrom(steps, a) && a <= b <= i < |states| && Viewed(states, b, i, view)
    ensures var s := states[a].store;
            (x in s <==> x in view) && (x in s ==> s[x].(status := NoStatus) == view[x].(status := NoStatus))
  {
    hide Behaviour, CalmFrom;
    assert Seen(states, b, i, view, x);
    var j :| b <= j <= i && Same(view, states[j].store, x);
    CalmKeeps(states, steps, c, a, j);
  }

  /** In such a view, everything below a low product is right. */
  lemma {:induction false} ViewRightBelow(states: seq<System>, steps: seq<Step>, c: Settings, a: nat, b: nat, i: nat,
                                          view: Store,
                                          k: Key, t: nat)
    requires Behaviour(states, steps, c) && CalmFrom(steps, a) && a <= b <= i < |states| && Viewed(states, b, i, view)
    requires RightFrom(states, c, a, b, t - 1) && Low(states[a].store, k, t) && Acceptable(view, k)
    ensures RightBelow(view, c, states[a].local, k)
  {
    var s, local := states[a].store, states[a].local;
    ViewDeclares(states, steps, c, a, b, i, view);
    DeclarationsJoin(s, view, view);
    AcceptableDeclared(view, s, k);
    AdjacencyDeclared(s, view);
    hide Behaviour, CalmFrom, Acceptable, Healthy, SameDeclarations, Adjacency;
    forall x, n: nat {:trigger Walk(Adjacency(view), k, x, n)} | n > 0 && Walk(Adjacency(view), k, x, n) && x in view
      ensures IsReady(view[x]) <==> Healthy(view, c, local, x)
    {
      assert Walk(Adjacency(s), k, x, n) && n <= t;
      LowBelow(s, k, x, n, t);
      HealthShared(s, view, c, local, x);
      assert Seen(states, b, i, view, x);
      var j :| b <= j <= i && Same(view, states[j].store, x);
      DeclaredIn(s, view, x);
      assert RightAt(states, c, a, j, x);
    }
  }

  lemma {:induction false} DeclaredIn(a: Store, b: Store, x: Key)
    requires SameDeclarations(a, b)
    ensures x in a <==> x in b
  {
  }

  lemma {:induction false} HealthShared(a: Store, b: Store, c: Settings, local: map<Key, LocalState>, k: Key)
    requires SameDeclarations(a, b)
    ensures Healthy(a, c, local, k) <==> Healthy(b, c, local, k)
  {
    hide Healthy;
    DeclarationsJoin(a, b, b);
    if Healthy(a, c, local, k) {
      HealthDeclared(a, b, c, local, k);
    }
    if Healthy(b, c, local, k) {
      HealthDeclared(b, a, c, local, k);
    }
  }

  lemma {:induction false} LowBelow(s: Store, k: Key, x: Key, n: nat, t: nat)
    requires Acceptable(s, k) && Low(s, k, t) && 0 < n <= t && Walk(Adjacency(s), k, x, n)
    ensures Low(s, x, t - 1)
  {
    hide Acceptable, Adjacency;
    forall y, m: nat | Walk(Adjacency(s), x, y, m)
      ensures m <= t - 1
    {
      Join(Adjacency(s), k, x, y, n, m);
    }
  }

  /** Where lower products are right, every run for k leaves it right. */
  lemma {:induction false} AchievesRight(states: seq<System>, steps: seq<Step>, c: Settings, a: nat, b: nat, k: Key,
                                         t: nat,
                                         goal: Product -> bool)
    requires Behaviour(states, steps, c) && c.composition && CalmFrom(steps, a) && a <= b < |states|
    requires RightFrom(states, c, a, b, t - 1) && Low(states[a].store, k, t) && k in states[a].store
    requires forall p :: goal(p) <==> (IsReady(p) <==> Healthy(states[a].store, c, states[a].local, k))
    ensures Achieves(states, steps, b, k, goal)
  {
    Lengths(states, steps, c);
    hide Behaviour, CalmFrom, Healthy, Low, RightFrom, Young;
    forall i {:trigger steps[i]} | b <= i < |steps| && steps[i].CommitStep? && steps[i].k == k && Young(states, b, i, k)
                                   && k in states[i + 1].store
      ensures goal(states[i + 1].store[k])
    {
      CommitRight(states, steps, c, a, b, i, k, t);
    }
  }

  lemma {:induction false} Lengths(states: seq<System>, steps: seq<Step>, c: Settings)
    requires Behaviour(states, steps, c)
    ensures |states| == |steps| + 1
  {
  }

  lemma {:induction false} CommitRight(states: seq<System>, steps: seq<Step>, c: Settings, a: nat, b: nat, i: nat,
                                       k: Key, t: nat)
    requires Behaviour(states, steps, c) && c.composition && CalmFrom(steps, a) && a <= b <= i < |steps| == |states| - 1
    requires RightFrom(states, c, a, b, t - 1) && Low(states[a].store, k, t) && k in states[a].store
    requires steps[i].CommitStep? && steps[i].k == k && Young(states, b, i, k) && k in states[i + 1].store
    ensures IsReady(states[i + 1].store[k]) <==> Healthy(states[a].store, c, states[a].local, k)
  {
    hide *;
    CalmAt(steps, a, i);
    CalmKeeps(states, steps, c, a, i);
    DeclaredIn(states[a].store, states[i].store, k);
    var view := CommitComputes(states, steps, c, b, i, k);
    ViewDeclares(states, steps, c, a, b, i, view);
    if Acceptable(view, k) {
      ViewRightBelow(states, steps, c, a, b, i, view, k, t);
    }
    ComputedRight(view, c, states[a].local, k);
    HealthShared(states[a].store, view, c, states[a].local, k);
    WrittenReady(view[k], states[i + 1].store[k], Run(Quieted(view), c, LocalOf(states[i].local, k), view[k]).status);
  }

  lemma {:induction false} WrittenReady(p: Product, q: Product, status: Status)
    requires q == p.(status := status)
    ensures IsReady(q) <==> Readying(status, p.generation)
  {
  }

  /** A settled product is right where lower products are. */
  lemma {:induction false} SettledRight(states: seq<System>, steps: seq<Step>, c: Settings, a: nat, b: nat, m: nat,
                                        k: Key, t: nat)
    requires Behaviour(states, steps, c) && c.composition && CalmFrom(steps, a) && a <= b <= m < |states|
    requires RightFrom(states, c, a, b, t - 1) && Low(states[a].store, k, t) && k in states[m].store
    requires UpToDate(states[m].store, states[m].local, c, k)
    ensures RightAt(states, c, a, m, k)
  {
    var s := states[m].store;
    InvAlways(states, steps, c, m);
    CalmKeeps(states, steps, c, a, m);
    OwnView(states, b, m);
    if Acceptable(s, k) {
      ViewRightBelow(states, steps, c, a, b, m, s, k, t);
    }
    InvKeyed(states[m], c);
    hide Behaviour, CalmFrom, Healthy, Low, RightFrom, Acceptable, Run, WorkQueue.Inv;
    ComputedRight(s, c, states[a].local, k);
    HealthShared(states[a].store, s, c, states[a].local, k);
    WrittenReady(s[k], s[k], s[k].status);
  }

  lemma {:induction false} InvKeyed(sys: System, c: Settings)
    requires WorkQueue.Inv(sys, c)
    ensures WellKeyed(sys.store)
  {
    hide InvAt;
  }

  lemma {:induction false} OwnView(states: seq<System>, b: nat, m: nat)
    requires b <= m < |states|
    ensures Viewed(states, b, m, states[m].store)
  {
    forall x
      ensures Seen(states, b, m, states[m].store, x)
    {
      assert Same(states[m].store, states[m].store, x);
    }
  }

  /** One fair round lifts readiness by one level. */
  lemma {:induction false} RoundLifts(states: seq<System>, steps: seq<Step>, c: Settings, a: nat, b: nat, e: nat,
                                      t: nat)
    requires Behaviour(states, steps, c) && c.composition && CalmFrom(steps, a) && a <= b <= e < |states|
    requires FairRound(states, steps, b, e) && RightFrom(states, c, a, b, t - 1)
    ensures RightFrom(states, c, a, e, t)
  {
    hide Behaviour, FairRound, Healthy, Low, RightFrom, Achieves, UpToDate;
    CalmLater(steps, a, b);
    forall i, k {:trigger RightAt(states, c, a, i, k)} | e <= i < |states| && k in states[a].store &&
      Low(states[a].store, k, t)
      ensures RightAt(states, c, a, i, k)
    {
      var goal := Goal(Healthy(states[a].store, c, states[a].local, k));
      AchievesRight(states, steps, c, a, b, k, t, goal);
      DeclaredAt(states, steps, c, a, b, k);
      forall m {:trigger states[m]} | b <= m <= e && k in states[m].store &&
        UpToDate(states[m].store, states[m].local, c, k)
        ensures goal(states[m].store[k])
      {
        SettledRight(states, steps, c, a, b, m, k, t);
      }
      RoundEstablishes(states, steps, c, b, e, i, k, goal);
    }
    RightFromIs(states, c, a, e, t);
  }

  function Goal(healthy: bool): Product -> bool
  {
    (p: Product) => IsReady(p) <==> healthy
  }

  lemma {:induction false} CalmLater(steps: seq<Step>, a: nat, b: nat)
    requires CalmFrom(steps, a) && a <= b
    ensures CalmFrom(steps, b)
  {
  }

  lemma {:induction false} RightFromIs(states: seq<System>, c: Settings, a: nat, b: nat, t: nat)
    requires a < |states|
    requires forall i, k {:trigger RightAt(states, c, a, i, k)} ::
               b <= i < |states| && k in states[a].store && Low(states[a].store, k, t) ==> RightAt(states, c, a, i, k)
    ensures RightFrom(states, c, a, b, t)
  {
    hide Low, RightAt;
  }

  // ---------------------------------------------------------------- every status converges

  /** Consecutive fair rounds, between the marks. */
  ghost predicate Rounds(states: seq<System>, steps: seq<Step>, marks: seq<nat>)
    requires |states| == |steps| + 1
  {
    && marks != [] && (forall t {:trigger marks[t]} :: 0 <= t < |marks| ==> marks[0] <= marks[t] < |states|)
    && forall t {:trigger marks[t]} :: 0 < t < |marks| ==>
         marks[t - 1] <= marks[t] && FairRound(states, steps, marks[t - 1], marks[t])
  }

  lemma {:induction false} RoundAt(states: seq<System>, steps: seq<Step>, marks: seq<nat>, t: nat)
    requires |states| == |steps| + 1 && Rounds(states, steps, marks) && 0 < t < |marks|
    ensures marks[0] <= marks[t - 1] <= marks[t] < |states| && FairRound(states, steps, marks[t - 1], marks[t])
  {
    hide FairRound;
    assert marks[t] == marks[t] && marks[t - 1] == marks[t - 1];
  }

  /** After t + 1 rounds everything up to level t is right. */
  lemma {:induction false} RoundsLift(states: seq<System>, steps: seq<Step>, c: Settings, marks: seq<nat>, t: nat)
    requires Behaviour(states, steps, c) && c.composition && Rounds(states, steps, marks) && t + 1 < |marks|
    requires CalmFrom(steps, marks[0])
    ensures marks[0] < |states| && RightFrom(states, c, marks[0], marks[t + 1], t)
    decreases t
  {
    Lengths(states, steps, c);
    RoundAt(states, steps, marks, t + 1);
    hide Behaviour, CalmFrom, FairRound, Rounds, Low, RightAt;
    var a := marks[0];
    if t == 0 {
      NothingBelow(states, c, a, marks[t]);
    } else {
      RoundsLift(states, steps, c, marks, t - 1);
    }
    RoundLifts(states, steps, c, a, marks[t], marks[t + 1], t);
  }

  lemma {:induction false} NothingBelow(states: seq<System>, c: Settings, a: nat, b: nat)
    requires a < |states|
    ensures RightFrom(states, c, a, b, -1)
  {
    hide Low, RightAt;
  }

  /** Every product is low enough for 64 rounds. */
  lemma {:induction false} AlwaysLow(s: Store, k: Key)
    ensures Low(s, k, MAX_DEPTH - 1)
  {
    hide Adjacency, Reachable, InputsMatch;
  }

  /**
   Readiness converges: once declarations and local states have stopped changing, after 64 fair rounds every product
   is recorded as ready exactly when its declared graph is healthy, and stays so, whatever was recorded before.
   */
  lemma {:induction false} ReadinessConverges(states: seq<System>, steps: seq<Step>, c: Settings, marks: seq<nat>,
                                              i: nat, k: Key)
    requires Behaviour(states, steps, c) && c.composition && Rounds(states, steps, marks) && |marks| > MAX_DEPTH
    requires CalmFrom(steps, marks[0]) && marks[MAX_DEPTH] <= i < |states| && k in states[i].store
    ensures IsReady(states[i].store[k]) <==> Healthy(states[i].store, c, states[i].local, k)
  {
    Lengths(states, steps, c);
    RoundAt(states, steps, marks, MAX_DEPTH);
    var a := marks[0];
    RoundsLift(states, steps, c, marks, MAX_DEPTH - 1);
    AlwaysLow(states[a].store, k);
    hide Behaviour, CalmFrom, Rounds, Low, Healthy;
    CalmKeeps(states, steps, c, a, i);
    DeclaredIn(states[a].store, states[i].store, k);
    assert RightAt(states, c, a, i, k);
    HealthShared(states[a].store, states[i].store, c, states[a].local, k);
  }

  /** From 64 rounds on, all stores record the same readiness. */
  lemma {:induction false} ReadinessSteady(states: seq<System>, steps: seq<Step>, c: Settings, marks: seq<nat>, i: nat,
                                           j: nat)
    requires Behaviour(states, steps, c) && c.composition && Rounds(states, steps, marks) && |marks| > MAX_DEPTH
    requires CalmFrom(steps, marks[0]) && marks[MAX_DEPTH] <= i <= j < |states|
    ensures SameReadiness(states[i].store, states[j].store)
  {
    Lengths(states, steps, c);
    RoundAt(states, steps, marks, MAX_DEPTH);
    CalmLater(steps, marks[0], i);
    CalmKeeps(states, steps, c, i, j);
    var s, u := states[i].store, states[j].store;
    hide Behaviour, CalmFrom, Rounds, Healthy, ProducerReady, IsReady;
    forall k {:trigger s[k]} {:trigger u[k]} | k in s
      ensures ProducerReady(s[k]) <==> ProducerReady(u[k])
    {
      ReadinessConverges(states, steps, c, marks, i, k);
      DeclaredIn(s, u, k);
      ReadinessConverges(states, steps, c, marks, j, k);
      HealthShared(s, u, c, states[i].local, k);
      SameDeleting(s, u, k);
    }
  }

  lemma {:induction false} SameDeleting(a: Store, b: Store, k: Key)
    requires SameDeclarations(a, b) && k in a && k in b && (IsReady(a[k]) <==> IsReady(b[k]))
    ensures ProducerReady(a[k]) <==> ProducerReady(b[k])
  {
    assert a[k].(status := NoStatus) == b[k].(status := NoStatus);
  }

  /** A view of such stores records that readiness too. */
  lemma {:induction false} ViewReadiness(states: seq<System>, b: nat, i: nat, view: Store)
    requires b <= i < |states| && Viewed(states, b, i, view)
    requires forall j {:trigger states[j]} :: b <= j <= i ==> SameReadiness(states[b].store, states[j].store)
    ensures SameReadiness(states[b].store, view)
  {
    var s := states[b].store;
    hide SameReadiness, Alike, Viewed;
    forall x
      ensures x in s <==> x in view
      ensures x in s ==> Alike(s[x], view[x])
    {
      ViewReadinessAt(states, b, i, view, x);
    }
    AllAlike(s, view);
  }

  lemma {:induction false} ViewReadinessAt(states: seq<System>, b: nat, i: nat, view: Store, x: Key)
    requires b <= i < |states| && Viewed(states, b, i, view)
    requires forall j {:trigger states[j]} :: b <= j <= i ==> SameReadiness(states[b].store, states[j].store)
    ensures var s := states[b].store;
            (x in s <==> x in view) && (x in s ==> Alike(s[x], view[x]))
  {
    hide SameReadiness, Alike;
    assert Seen(states, b, i, view, x);
    var j :| b <= j <= i && Same(view, states[j].store, x);
    assert SameReadiness(states[b].store, states[j].store);
    AlikeThere(states[b].store, states[j].store, x);
  }

  lemma {:induction false} AlikeThere(a: Store, b: Store, k: Key)
    requires SameReadiness(a, b)
    ensures (k in a <==> k in b) && (k in a ==> Alike(a[k], b[k]))
  {
    hide ProducerReady;
  }

  lemma {:induction false} AllAlike(a: Store, b: Store)
    requires forall k :: (k in a <==> k in b) && (k in a ==> Alike(a[k], b[k]))
    ensures SameReadiness(a, b)
  {
    hide ProducerReady;
  }

  lemma {:induction false} AlikeIn(a: Store, b: Store, k: Key)
    requires SameReadiness(a, b) && k in a
    ensures k in b && Alike(a[k], b[k])
  {
    hide ProducerReady;
  }

  /** The status every product settles at. */
  ghost function Final(sys: System, c: Settings, k: Key): Product
    requires k in sys.store
  {
    sys.store[k].(status := Run(Quieted(sys.store), c, LocalOf(sys.local, k), sys.store[k]).status)
  }

  ghost predicate SteadyFrom(states: seq<System>, b: nat)
    requires b < |states|
  {
    forall j {:trigger states[j]} :: b <= j < |states| ==>
      SameReadiness(states[b].store, states[j].store) && states[j].local == states[b].local
  }

  /** Over steady readiness, every run for k leaves it settled. */
  lemma {:induction false} CommitFinal(states: seq<System>, steps: seq<Step>, c: Settings, b: nat, i: nat, k: Key)
    requires Behaviour(states, steps, c) && c.composition && CalmFrom(steps, b) && b <= i < |steps| == |states| - 1
    requires SteadyFrom(states, b) && k in states[b].store
    requires steps[i].CommitStep? && steps[i].k == k && Young(states, b, i, k) && k in states[i + 1].store
    ensures states[i + 1].store[k] == Final(states[b], c, k)
  {
    SteadyAt(states, b, i);
    CalmAt(steps, b, i);
    AlikeIn(states[b].store, states[i].store, k);
    hide Behaviour, CalmFrom, Young, Run, CalmStep;
    var view := CommitComputes(states, steps, c, b, i, k);
    ViewReadiness(states, b, i, view);
    AlikeIn(states[b].store, view, k);
    hide SteadyFrom, SameReadiness, Viewed;
    RunAlike(states[b].store, view, c, LocalOf(states[b].local, k), states[b].store[k], view[k]);
    SameFinal(states[b].store[k], view[k], Run(Quieted(view), c, LocalOf(states[b].local, k), view[k]).status);
  }

  lemma {:induction false} SteadyAt(states: seq<System>, b: nat, j: nat)
    requires b <= j < |states| && SteadyFrom(states, b)
    ensures SameReadiness(states[b].store, states[j].store) && states[j].local == states[b].local
  {
    hide SameReadiness;
  }

  lemma {:induction false} SameFinal(p: Product, q: Product, status: Status)
    requires Alike(p, q)
    ensures p.(status := status) == q.(status := status)
  {
    assert p.(status := NoStatus) == q.(status := NoStatus);
  }

  /** One more round settles every status. */
  lemma {:induction false} RoundSettles(states: seq<System>, steps: seq<Step>, c: Settings, b: nat, e: nat, i: nat,
                                        k: Key)
    requires Behaviour(states, steps, c) && c.composition && CalmFrom(steps, b) && b <= e <= i < |states|
    requires FairRound(states, steps, b, e) && SteadyFrom(states, b) && k in states[b].store
    ensures k in states[i].store && states[i].store[k] == Final(states[b], c, k)
  {
    Lengths(states, steps, c);
    var final := Final(states[b], c, k);
    var goal := Exactly(final);
    hide Behaviour, CalmFrom, FairRound, SteadyFrom, Young, Final;
    forall n {:trigger steps[n]} | b <= n < |steps| && steps[n].CommitStep? && steps[n].k == k && Young(states, b, n, k)
                                   && k in states[n + 1].store
      ensures goal(states[n + 1].store[k])
    {
      CommitFinal(states, steps, c, b, n, k);
    }
    forall m {:trigger states[m]} | b <= m <= e && k in states[m].store &&
      UpToDate(states[m].store, states[m].local, c, k)
      ensures goal(states[m].store[k])
    {
      AlreadyFinal(states, c, b, m, k);
    }
    hide UpToDate;
    RoundEstablishes(states, steps, c, b, e, i, k, goal);
  }

  function Exactly(final: Product): Product -> bool
  {
    (p: Product) => p == final
  }

  lemma {:induction false} AlreadyFinal(states: seq<System>, c: Settings, b: nat, m: nat, k: Key)
    requires c.composition && b <= m < |states| && SteadyFrom(states, b) && k in states[b].store && k in states[m].store
    requires UpToDate(states[m].store, states[m].local, c, k)
    ensures states[m].store[k] == Final(states[b], c, k)
  {
    SteadyAt(states, b, m);
    AlikeIn(states[b].store, states[m].store, k);
    var p, q := states[b].store[k], states[m].store[k];
    hide SteadyFrom, SameReadiness, Run;
    RunAlike(states[b].store, states[m].store, c, LocalOf(states[b].local, k), p, q);
    SameFinal(p, q, q.status);
    hide Alike;
  }

  /** The settled status is the one a run computes in any later store. */
  lemma {:induction false} FinalIsUpToDate(states: seq<System>, c: Settings, b: nat, i: nat, k: Key)
    requires c.composition && b <= i < |states| && SteadyFrom(states, b) && k in states[b].store
    requires k in states[i].store && states[i].store[k] == Final(states[b], c, k)
    ensures UpToDate(states[i].store, states[i].local, c, k)
  {
    SteadyAt(states, b, i);
    AlikeIn(states[b].store, states[i].store, k);
    hide SteadyFrom, SameReadiness, Alike, Run;
    RunAlike(states[b].store, states[i].store, c, LocalOf(states[b].local, k), states[b].store[k], states[i].store[k]);
  }

  /**
   Every run settles: once declarations and local states have stopped changing, after 65 fair rounds all recorded
   statuses are what a run would compute, on any graph, and nothing in the store changes any more.
   */
  lemma {:induction false} StatusesConverge(states: seq<System>, steps: seq<Step>, c: Settings, marks: seq<nat>, i: nat)
    requires Behaviour(states, steps, c) && c.composition && Rounds(states, steps, marks) && |marks| > MAX_DEPTH + 1
    requires CalmFrom(steps, marks[0]) && marks[MAX_DEPTH + 1] <= i < |states|
    ensures AtRest(states[i].store, c, states[i].local)
    ensures states[i].store == states[marks[MAX_DEPTH + 1]].store
  {
    Lengths(states, steps, c);
    RoundAt(states, steps, marks, MAX_DEPTH);
    RoundAt(states, steps, marks, MAX_DEPTH + 1);
    var b, e := marks[MAX_DEPTH], marks[MAX_DEPTH + 1];
    hide *;
    CalmLater(steps, marks[0], b);
    SteadyAfter(states, steps, c, marks);
    forall k | k in states[i].store || k in states[e].store
      ensures SettledAlong(states, c, e, i, k)
    {
      SettledThere(states, steps, c, b, e, i, k);
    }
    InvAlways(states, steps, c, i);
    InvKeyed(states[i], c);
    AllSettledAlong(states, c, e, i);
  }

  lemma {:induction false} SteadyAfter(states: seq<System>, steps: seq<Step>, c: Settings, marks: seq<nat>)
    requires Behaviour(states, steps, c) && c.composition && Rounds(states, steps, marks) && |marks| > MAX_DEPTH
    requires CalmFrom(steps, marks[0])
    ensures marks[MAX_DEPTH] < |states| && SteadyFrom(states, marks[MAX_DEPTH])
  {
    Lengths(states, steps, c);
    RoundAt(states, steps, marks, MAX_DEPTH);
    var b := marks[MAX_DEPTH];
    CalmLater(steps, marks[0], b);
    hide Behaviour, CalmFrom, Rounds, SameReadiness;
    forall j {:trigger states[j]} | b <= j < |states|
      ensures SameReadiness(states[b].store, states[j].store) && states[j].local == states[b].local
    {
      ReadinessSteady(states, steps, c, marks, b, j);
      CalmKeeps(states, steps, c, b, j);
    }
  }

  /** The product is the same at e and at i, and settled. */
  ghost predicate SettledAlong(states: seq<System>, c: Settings, e: nat, i: nat, k: Key)
    requires e < |states| && i < |states|
  {
    && k in states[i].store && k in states[e].store && states[i].store[k] == states[e].store[k]
    && UpToDate(states[i].store, states[i].local, c, k)
  }

  lemma {:induction false} SettledThere(states: seq<System>, steps: seq<Step>, c: Settings, b: nat, e: nat, i: nat,
                                        k: Key)
    requires Behaviour(states, steps, c) && c.composition && CalmFrom(steps, b) && b <= e <= i < |states|
    requires FairRound(states, steps, b, e) && SteadyFrom(states, b) && (k in states[i].store || k in states[e].store)
    ensures SettledAlong(states, c, e, i, k)
  {
    hide Behaviour, CalmFrom, FairRound, SteadyFrom, UpToDate, Final;
    DeclaredAt(states, steps, c, b, i, k);
    DeclaredAt(states, steps, c, b, e, k);
    RoundSettles(states, steps, c, b, e, i, k);
    RoundSettles(states, steps, c, b, e, e, k);
    FinalIsUpToDate(states, c, b, i, k);
  }

  lemma {:induction false} AllSettledAlong(states: seq<System>, c: Settings, e: nat, i: nat)
    requires e < |states| && i < |states| && WellKeyed(states[i].store)
    requires forall k :: k in states[i].store || k in states[e].store ==> SettledAlong(states, c, e, i, k)
    ensures AtRest(states[i].store, c, states[i].local) && states[i].store == states[e].store
  {
    hide UpToDate, WellKeyed;
    assert states[i].store.Keys == states[e].store.Keys;
  }
}
