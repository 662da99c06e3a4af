/**
 The controller's bounded depth-first composition check, as a function of the walk's state, and the
 declarative condition it decides.
 */
module Composition {
  import opened Products
  import opened Compatibility
  import opened Digraph
  import Sums

  const MAX_PRODUCTS := 256
  const MAX_EDGES := 1024
  const MAX_DEPTH := 64

  /** What the API answers at one time: a store, and the keys whose reads fail for another reason than absence. */
  datatype View = View(store: Store, failing: set<Key>)

  /**
   What the API answers during one run. A walk reads every key at most once, so one store and one set of failing
   keys cover it, up to the context check after which the shared deadline has passed. Outside a walk every input is
   read on its own, and a key may answer differently each time: direct holds the view of each input's read.
   */
  datatype Reader = Reader(store: Store, failing: set<Key>, deadline: Option<nat>, direct: seq<View>)

  /** What the direct read of input i sees. */
  function DirectView(r: Reader, i: nat): View
  {
    if i < |r.direct| then r.direct[i] else View(r.store, r.failing)
  }

  predicate Expired(r: Reader, clock: nat)
  {
    r.deadline.Some? && r.deadline.value <= clock
  }

  /** Neither read failures nor a deadline. */
  predicate Quiet(r: Reader)
  {
    r.failing == {} && r.deadline.None?
  }

  datatype Walked = Walked(
    products: map<Key, Product>,
    visiting: set<Key>,
    visited: set<Key>,
    heights: map<Key, nat>,
    missing: set<Key>,
    edges: nat,
    notReady: Option<Key>,
    clock: nat)

  function Start(root: Product): Walked
  {
    Walked(map[root.key := root], {}, {}, map[], {}, 0, None, 0)
  }

  function Height(g: Walked, k: Key): nat
  {
    if k in g.heights then g.heights[k] else 0
  }

  function Max(a: nat, b: nat): nat
  {
    if a >= b then a else b
  }

  function Remaining(depth: nat): nat
  {
    if depth < MAX_DEPTH then MAX_DEPTH - depth else 0
  }

  /** One activation of the search: the new state and the reason it stopped, if any. */
  function Visit(r: Reader, g: Walked, p: Product, depth: nat): (Walked, Reason)
    decreases Remaining(depth), 2, 0
  {
    var now := g.(clock := g.clock + 1);
    if Expired(r, g.clock) then (now, DependencyUnavailable)
    else if p.key in g.visiting then (now, DependencyCycle)
    else if p.key in g.visited then
      (now, if depth + Height(g, p.key) >= MAX_DEPTH then CompositionLimitExceeded else NoReason)
    else if depth >= MAX_DEPTH || g.edges + |p.inputs| > MAX_EDGES then (now, CompositionLimitExceeded)
    else
      var open := now.(edges := g.edges + |p.inputs|, visiting := g.visiting + {p.key});
      var (done, reason) := VisitInputs(r, open, p, depth, 0);
      (done.(visiting := done.visiting - {p.key},
             visited := if reason == NoReason then done.visited + {p.key} else done.visited),
       reason)
  }

  /** The loop over the inputs of an open product, from input i on. */
  function VisitInputs(r: Reader, g: Walked, p: Product, depth: nat, i: nat): (Walked, Reason)
    requires depth < MAX_DEPTH && i <= |p.inputs|
    decreases Remaining(depth), 1, |p.inputs| - i
  {
    if i == |p.inputs| then (g, NoReason)
    else
      var (next, reason) := VisitInput(r, g, p, depth, p.inputs[i]);
      if reason != NoReason then (next, reason) else VisitInputs(r, next, p, depth, i + 1)
  }

  /** One iteration of that loop. */
  function VisitInput(r: Reader, g: Walked, p: Product, depth: nat, input: Input): (Walked, Reason)
    requires depth < MAX_DEPTH
    decreases Remaining(depth), 0, 0
  {
    var key := Target(p.key, input);
    if key.ns != p.key.ns then (g, CrossNamespaceDependencyDenied)
    else
      var (found, reason) := Fetch(r, g, key);
      if reason != NoReason then (found, reason)
      else
        var producer := found.products[key];
        var (below, stop) := Visit(r, found, producer, depth + 1);
        if stop != NoReason then (below, stop)
        else
          var raised := below.(heights := below.heights[p.key := Max(Height(below, p.key), 1 + Height(below, key))]);
          var mismatch := InputCompatibility(input, producer);
          if mismatch != NoReason then (raised, mismatch)
          else (raised.(notReady := if !ProducerReady(producer) && raised.notReady.None? then Some(key)
                                    else raised.notReady), NoReason)
  }

  /** Read a producer once; a product already read is not read again. */
  function Fetch(r: Reader, g: Walked, key: Key): (res: (Walked, Reason))
    ensures res.1 == NoReason ==> key in res.0.products
  {
    if key in g.products then (g, NoReason)
    else if |g.products| >= MAX_PRODUCTS then (g, CompositionLimitExceeded)
    else if key in r.failing then (g, DependencyUnavailable)
    else if key !in r.store then (g.(missing := g.missing + {key}), DependencyNotFound)
    else (g.(products := g.products[key := r.store[key]]), NoReason)
  }

  // ---------------------------------------------------------------- what the walk decides

  ghost predicate Reachable(s: Store, root: Key, k: Key)
  {
    Reaches(Adjacency(s), root, k)
  }

  ghost function ReachSet(s: Store, root: Key): set<Key>
  {
    set k | k in s && Reachable(s, root, k)
  }

  /** An input stays in its namespace and matches an output of a stored producer. */
  ghost predicate Matches(s: Store, consumer: Key, input: Input)
  {
    var t := Target(consumer, input);
    t.ns == consumer.ns && t in s && InputCompatibility(input, s[t]) == NoReason
  }

  ghost predicate InputsMatch(s: Store, p: Product)
  {
    forall i {:trigger Matches(s, p.key, p.inputs[i])} :: 0 <= i < |p.inputs| ==> Matches(s, p.key, p.inputs[i])
  }

  /**
   The bounds, stated without reference to any search: the graph reachable from root is closed, stays in one
   namespace, matches every declared contract, has at most 256 products and 1024 inputs, and no chain of more
   than 63 edges, hence no cycle.
   */
  ghost predicate Acceptable(s: Store, root: Key)
  {
    && root in s
    && (forall k :: Reachable(s, root, k) ==> k in s && InputsMatch(s, s[k]))
    && |ReachSet(s, root)| <= MAX_PRODUCTS
    && Sums.Total(Weights(s), ReachSet(s, root)) <= MAX_EDGES
    && (forall k, n: nat :: Walk(Adjacency(s), root, k, n) ==> n < MAX_DEPTH)
  }

  lemma {:induction false} AcceptableIsAcyclic(s: Store, root: Key, k: Key, n: nat)
    requires Acceptable(s, root)
    requires Reachable(s, root, k) && Walk(Adjacency(s), k, k, n)
    ensures n == 0
  {
    BoundedIsAcyclic(Adjacency(s), root, k, n, MAX_DEPTH);
  }

  // ---------------------------------------------------------------- soundness

  /** A finished product: its inputs match, its producers are finished, and its height is exact. */
  ghost predicate Settled(s: Store, g: Walked, k: Key)
  {
    && k in s
    && InputsMatch(s, s[k])
    && Targets(s[k]) <= g.visited
    && HeightExact(g, k, Targets(s[k]))
  }

  /** The height of k is the maximum of 0 and one more than every producer's height. */
  ghost predicate HeightExact(g: Walked, k: Key, targets: set<Key>)
  {
    && (forall t {:trigger Height(g, t)} :: t in targets ==> 1 + Height(g, t) <= Height(g, k))
    && (Height(g, k) > 0 ==> exists t {:trigger Height(g, t)} :: t in targets && Height(g, k) == 1 + Height(g, t))
  }

  ghost predicate AllSettled(s: Store, g: Walked)
  {
    forall k {:trigger Settled(s, g, k)} :: k in g.visited ==> Settled(s, g, k)
  }

  /** What has been read is what is stored. */
  ghost predicate Faithful(s: Store, g: Walked)
  {
    forall k {:trigger g.products[k]} :: k in g.products ==> k in s && g.products[k] == s[k]
  }

  /** Reads are faithful, and both budgets are kept. */
  ghost predicate WithinBudget(s: Store, g: Walked)
  {
    && Faithful(s, g)
    && |g.products| <= MAX_PRODUCTS
    && g.visited <= g.products.Keys
    && g.visiting <= g.products.Keys
    && g.visited !! g.visiting
    && g.heights.Keys <= g.visited + g.visiting
    && g.visited + g.visiting <= Weights(s).Keys
    && g.edges == Sums.Total(Weights(s), g.visited + g.visiting)
    && g.edges <= MAX_EDGES
  }

  ghost predicate Inv(s: Store, g: Walked)
  {
    WithinBudget(s, g) && AllSettled(s, g)
  }

  /** What a successful part of the walk keeps of the state it started in. */
  ghost predicate Extends(g: Walked, h: Walked)
  {
    && h.visiting == g.visiting
    && g.visited <= h.visited
    && g.products.Keys <= h.products.Keys
    && (forall k {:trigger Height(h, k)} :: k in g.visited ==> Height(h, k) == Height(g, k))
    && (g.notReady.Some? ==> h.notReady == g.notReady)
  }

  /** Like Extends, for open products other than p as well. */
  ghost predicate ExtendsBeside(g: Walked, h: Walked, p: Key)
  {
    Extends(g, h) && forall k {:trigger Height(h, k)} :: k in g.visiting && k != p ==> Height(h, k) == Height(g, k)
  }

  /** Products finished since g have only ready producers, unless a product that is not is recorded. */
  ghost predicate ReadinessSeen(s: Store, g: Walked, h: Walked, extra: set<Key>)
  {
    && (h.notReady.None? ==>
          (forall k, t :: k in h.visited - g.visited && k in s && t in Targets(s[k]) && t in s ==> ProducerReady(s[t]))
          && (forall t :: t in extra && t in s ==> ProducerReady(s[t])))
    && (g.notReady.None? && h.notReady.Some? ==>
          h.notReady.value in s && !ProducerReady(s[h.notReady.value]) &&
          ((exists k :: k in h.visited - g.visited && k in s && h.notReady.value in Targets(s[k]))
           || h.notReady.value in extra))
  }

  /** The targets of the first i inputs. */
  function TargetsUpTo(p: Product, i: nat): set<Key>
    requires i <= |p.inputs|
  {
    set j | 0 <= j < i :: Target(p.key, p.inputs[j])
  }

  lemma {:induction false} TargetsStep(p: Product, i: nat)
    requires i < |p.inputs|
    ensures TargetsUpTo(p, i + 1) == TargetsUpTo(p, i) + {Target(p.key, p.inputs[i])}
  {
  }

  /** The first i inputs of the open product p have been dealt with. */
  ghost predicate OpenUpTo(s: Store, g: Walked, p: Product, i: nat)
    requires i <= |p.inputs|
  {
    && p.key in g.visiting
    && p.key in s && s[p.key] == p
    && (forall j {:trigger Matches(s, p.key, p.inputs[j])} :: 0 <= j < i ==> Matches(s, p.key, p.inputs[j]))
    && TargetsUpTo(p, i) <= g.visited
    && HeightExact(g, p.key, TargetsUpTo(p, i))
  }

  lemma {:induction false} ReadinessJoins(s: Store, g: Walked, m: Walked, h: Walked, a: set<Key>, b: set<Key>)
    requires g.visited <= m.visited <= h.visited
    requires ReadinessSeen(s, g, m, a) && ReadinessSeen(s, m, h, b)
    requires m.notReady.Some? ==> h.notReady == m.notReady
    ensures ReadinessSeen(s, g, h, a + b)
  {
    if h.notReady.None? {
      forall k, t | k in h.visited - g.visited && k in s && t in Targets(s[k]) && t in s
        ensures ProducerReady(s[t])
      {
        assert k in m.visited - g.visited || k in h.visited - m.visited;
      }
    } else if g.notReady.None? {
      if m.notReady.Some? {
        if h.notReady.value !in a {
          var k :| k in m.visited - g.visited && k in s && h.notReady.value in Targets(s[k]);
          assert k in h.visited - g.visited;
        }
      } else if h.notReady.value !in b {
        var k :| k in h.visited - m.visited && k in s && h.notReady.value in Targets(s[k]);
        assert k in h.visited - g.visited;
      }
    }
  }

  /** A finished product stays finished while the walk goes on. */
  lemma {:induction false} SettledKept(s: Store, g: Walked, h: Walked, k: Key)
    requires Settled(s, g, k) && k in g.visited
    requires g.visited <= h.visited
    requires forall x {:trigger Height(h, x)} :: x in g.visited ==> Height(h, x) == Height(g, x)
    ensures Settled(s, h, k)
  {
    assert Height(h, k) == Height(g, k);
    if Height(h, k) > 0 {
      var t :| t in Targets(s[k]) && Height(g, k) == 1 + Height(g, t);
      assert Height(h, k) == 1 + Height(h, t);
    }
  }

  lemma {:induction false} AllSettledKept(s: Store, g: Walked, h: Walked)
    requires AllSettled(s, g) && h.visited == g.visited
    requires forall x {:trigger Height(h, x)} :: x in g.visited ==> Height(h, x) == Height(g, x)
    ensures AllSettled(s, h)
  {
    hide Settled, Height;
    forall k | k in h.visited
      ensures Settled(s, h, k)
    {
      assert Settled(s, g, k);
      SettledKept(s, g, h, k);
    }
  }

  lemma {:induction false} FetchFaithful(r: Reader, g: Walked, key: Key)
    requires Faithful(r.store, g)
    ensures var (h, reason) := Fetch(r, g, key);
            Faithful(r.store, h) && h.visited == g.visited &&
            (reason == NoReason ==>
               key in r.store && h.products[key] == r.store[key] &&
               g.products.Keys <= h.products.Keys && h == g.(products := h.products))
  {
  }

  lemma {:induction false} FetchBounded(r: Reader, g: Walked, key: Key)
    requires |g.products| <= MAX_PRODUCTS
    ensures |Fetch(r, g, key).0.products| <= MAX_PRODUCTS
  {
    var h := Fetch(r, g, key).0;
    if h.products != g.products {
      assert h.products.Keys == g.products.Keys + {key};
    }
  }

  lemma {:induction false} FetchBudget(r: Reader, g: Walked, key: Key)
    requires WithinBudget(r.store, g)
    ensures var (h, reason) := Fetch(r, g, key);
            reason == NoReason ==>
              WithinBudget(r.store, h) && key in r.store && h.products[key] == r.store[key] &&
              g.products.Keys <= h.products.Keys && h == g.(products := h.products)
  {
    FetchFaithful(r, g, key);
    FetchBounded(r, g, key);
    hide Faithful, Fetch;
  }

  lemma {:induction false} FetchSound(r: Reader, g: Walked, key: Key)
    requires Inv(r.store, g) && Fetch(r, g, key).1 == NoReason
    ensures var h := Fetch(r, g, key).0;
            Inv(r.store, h) && Extends(g, h) && ReadinessSeen(r.store, g, h, {}) &&
            h.heights == g.heights && h.visited == g.visited && h.visiting == g.visiting &&
            key in r.store && h.products[key] == r.store[key]
  {
    hide WithinBudget, Targets, ProducerReady, Settled;
    FetchBudget(r, g, key);
    var h := Fetch(r, g, key).0;
    hide Fetch;
    assert forall x :: Height(h, x) == Height(g, x);
    AllSettledKept(r.store, g, h);
  }

  lemma {:induction false} TickSound(s: Store, g: Walked)
    requires Inv(s, g)
    ensures var h := g.(clock := g.clock + 1);
            Inv(s, h) && Extends(g, h) && ReadinessSeen(s, g, h, {})
  {
    AllSettledKept(s, g, g.(clock := g.clock + 1));
  }

  /** Opening a product that is neither open nor finished keeps the invariant. */
  lemma {:induction false} OpenSound(s: Store, g: Walked, p: Product)
    requires WellKeyed(s) && Inv(s, g)
    requires p.key in g.products && g.products[p.key] == p
    requires p.key !in g.visiting && p.key !in g.visited
    requires g.edges + |p.inputs| <= MAX_EDGES
    ensures var open := g.(clock := g.clock + 1, edges := g.edges + |p.inputs|, visiting := g.visiting + {p.key});
            Inv(s, open) && OpenUpTo(s, open, p, 0) && Height(open, p.key) == 0
  {
    var open := g.(clock := g.clock + 1, edges := g.edges + |p.inputs|, visiting := g.visiting + {p.key});
    Sums.Add(Weights(s), g.visited + g.visiting, p.key);
    assert open.visited + open.visiting == g.visited + g.visiting + {p.key};
    AllSettledKept(s, g, open);
  }

  ghost predicate Closes(g: Walked, open: Walked, done: Walked, h: Walked, p: Product)
  {
    && p.key !in g.visiting && p.key !in g.visited && p.key !in g.heights
    && open == g.(clock := g.clock + 1, edges := g.edges + |p.inputs|, visiting := g.visiting + {p.key})
    && ExtendsBeside(open, done, p.key)
    && h == done.(visiting := done.visiting - {p.key}, visited := done.visited + {p.key})
  }

  /** Closing a product whose inputs have all been dealt with keeps the invariant. */
  lemma {:induction false} CloseSound(s: Store, g: Walked, open: Walked, done: Walked, h: Walked, p: Product)
    requires Inv(s, done) && Closes(g, open, done, h, p) && OpenUpTo(s, done, p, |p.inputs|)
    ensures Inv(s, h) && Height(h, p.key) == Height(done, p.key) && p.key in h.visited
  {
    hide *;
    InvIs(s, done);
    CloseFrame(g, open, done, h, p);
    CloseBudget(s, done, h, p);
    CloseSettles(s, done, h, p);
    CloseKeepsSettled(s, done, h, p);
    InvIs(s, h);
  }

  lemma {:induction false} InvIs(s: Store, g: Walked)
    ensures Inv(s, g) <==> WithinBudget(s, g) && AllSettled(s, g)
  {
    hide WithinBudget, AllSettled;
  }

  /** Closing p moves it from the open products to the finished ones and leaves every height alone. */
  lemma {:induction false} CloseFrame(g: Walked, open: Walked, done: Walked, h: Walked, p: Product)
    requires Closes(g, open, done, h, p)
    ensures p.key in done.visiting && h == done.(visiting := done.visiting - {p.key}, visited := done.visited + {p.key})
    ensures forall x {:trigger Height(h, x)} :: Height(h, x) == Height(done, x)
  {
  }

  lemma {:induction false} CloseBudget(s: Store, done: Walked, h: Walked, p: Product)
    requires p.key in done.visiting && WithinBudget(s, done)
    requires h == done.(visiting := done.visiting - {p.key}, visited := done.visited + {p.key})
    ensures WithinBudget(s, h)
  {
    assert h.visited + h.visiting == done.visited + done.visiting;
  }

  lemma {:induction false} CloseSettles(s: Store, done: Walked, h: Walked, p: Product)
    requires OpenUpTo(s, done, p, |p.inputs|)
    requires h == done.(visiting := done.visiting - {p.key}, visited := done.visited + {p.key})
    requires forall x {:trigger Height(h, x)} :: Height(h, x) == Height(done, x)
    ensures Settled(s, h, p.key)
  {
    assert TargetsUpTo(p, |p.inputs|) == Targets(p);
    if Height(h, p.key) > 0 {
      var t :| t in Targets(p) && Height(done, p.key) == 1 + Height(done, t);
      assert Height(h, p.key) == 1 + Height(h, t);
    }
  }

  lemma {:induction false} CloseKeepsSettled(s: Store, done: Walked, h: Walked, p: Product)
    requires AllSettled(s, done) && Settled(s, h, p.key)
    requires h == done.(visiting := done.visiting - {p.key}, visited := done.visited + {p.key})
    requires forall x {:trigger Height(h, x)} :: Height(h, x) == Height(done, x)
    ensures AllSettled(s, h)
  {
    forall k | k in h.visited
      ensures Settled(s, h, k)
    {
      hide Settled;
      if k != p.key {
        assert Settled(s, done, k);
        SettledKept(s, done, h, k);
      }
    }
  }

  lemma {:induction false} CloseExtends(s: Store, g: Walked, open: Walked, done: Walked, h: Walked, p: Product)
    requires Closes(g, open, done, h, p)
    ensures Extends(g, h)
    ensures forall k {:trigger Height(h, k)} :: k in g.visiting ==> Height(h, k) == Height(g, k)
  {
    assert forall k :: Height(open, k) == Height(g, k) && Height(h, k) == Height(done, k);
    assert forall k {:trigger Height(h, k)} :: k in g.visited ==> k in open.visited && Height(h, k) == Height(g, k);
  }

  lemma {:induction false} CloseReadiness(s: Store, g: Walked, open: Walked, done: Walked, h: Walked, p: Product)
    requires Closes(g, open, done, h, p) && p.key in s && s[p.key] == p
    requires ReadinessSeen(s, open, done, Targets(p))
    ensures ReadinessSeen(s, g, h, {})
  {
    hide Extends, Targets;
    assert p.key in h.visited - g.visited;
    if h.notReady.None? {
      forall k, t | k in h.visited - g.visited && k in s && t in Targets(s[k]) && t in s
        ensures ProducerReady(s[t])
      {
        assert k == p.key || k in done.visited - open.visited;
      }
    } else if g.notReady.None? && h.notReady.value !in Targets(p) {
      var k :| k in done.visited - open.visited && k in s && h.notReady.value in Targets(s[k]);
      assert k in h.visited - g.visited;
    }
  }

  ghost predicate Raises(s: Store, g: Walked, below: Walked, h: Walked, p: Product, i: nat)
  {
    && i < |p.inputs|
    && Extends(g, below)
    && (forall k {:trigger Height(below, k)} :: k in g.visiting ==> Height(below, k) == Height(g, k))
    && p.key in g.visiting
    && var key := Target(p.key, p.inputs[i]);
       && key in below.visited && Matches(s, p.key, p.inputs[i])
       && h == below.(heights := below.heights[p.key := Max(Height(below, p.key), 1 + Height(below, key))],
                      notReady := if !ProducerReady(s[key]) && below.notReady.None? then Some(key)
                                  else below.notReady)
  }

  /** Recording the height of a finished producer keeps the invariant. */
  lemma {:induction false} RaiseSound(s: Store, g: Walked, below: Walked, h: Walked, p: Product, i: nat)
    requires Inv(s, below) && Raises(s, g, below, h, p, i)
    ensures Inv(s, h) && ExtendsBeside(g, h, p.key)
    ensures Height(h, p.key) == Max(Height(g, p.key), 1 + Height(below, Target(p.key, p.inputs[i])))
    ensures forall k {:trigger Height(h, k)} :: k != p.key ==> Height(h, k) == Height(below, k)
  {
    hide Settled, Matches, ProducerReady;
    assert forall k {:trigger Height(h, k)} :: k != p.key ==> Height(h, k) == Height(below, k);
    assert p.key !in below.visited;
    AllSettledKept(s, below, h);
    assert Height(below, p.key) == Height(g, p.key);
  }

  /** ... and advances the open product by one input. */
  lemma {:induction false} RaiseOpens(s: Store, g: Walked, below: Walked, h: Walked, p: Product, i: nat)
    requires Raises(s, g, below, h, p, i) && OpenUpTo(s, g, p, i)
    requires p.key !in below.visited && TargetsUpTo(p, i) <= g.visited
    requires Height(h, p.key) == Max(Height(g, p.key), 1 + Height(below, Target(p.key, p.inputs[i])))
    requires forall k {:trigger Height(h, k)} :: k != p.key ==> Height(h, k) == Height(below, k)
    ensures OpenUpTo(s, h, p, i + 1)
  {
    hide Matches, ProducerReady, Height;
    var key := Target(p.key, p.inputs[i]);
    TargetsStep(p, i);
    var before := TargetsUpTo(p, i);
    assert p.key !in before + {key};
    assert forall t {:trigger Height(h, t)} :: t in before ==> Height(h, t) == Height(below, t) == Height(g, t);
    assert Height(h, key) == Height(below, key);
    if Height(h, p.key) != 1 + Height(h, key) && Height(g, p.key) > 0 {
      var t :| t in before && Height(g, p.key) == 1 + Height(g, t);
      assert Height(h, p.key) == 1 + Height(h, t);
    }
  }

  lemma {:induction false} RaiseReadiness(s: Store, g: Walked, below: Walked, h: Walked, p: Product, i: nat)
    requires Raises(s, g, below, h, p, i) && ReadinessSeen(s, g, below, {})
    ensures ReadinessSeen(s, g, h, {Target(p.key, p.inputs[i])})
  {
    hide Extends, Targets, Height;
    var key := Target(p.key, p.inputs[i]);
    assert key in s;
    if h.notReady.None? {
      forall k, t | k in h.visited - g.visited && k in s && t in Targets(s[k]) && t in s
        ensures ProducerReady(s[t])
      {
        assert k in below.visited - g.visited;
      }
    } else if g.notReady.None? && h.notReady.value != key {
      var k :| k in below.visited - g.visited && k in s && h.notReady.value in Targets(s[k]);
      assert k in h.visited - g.visited;
    }
  }

  /** Everything a successful activation guarantees. */
  ghost predicate Sound(s: Store, g: Walked, h: Walked, key: Key, depth: nat)
  {
    && Inv(s, h)
    && Extends(g, h)
    && (forall k {:trigger Height(h, k)} :: k in g.visiting ==> Height(h, k) == Height(g, k))
    && key in h.visited
    && depth + Height(h, key) < MAX_DEPTH
    && ReadinessSeen(s, g, h, {})
  }

  /** Everything the loop guarantees from one input boundary to a later one. */
  ghost predicate SoundInputs(s: Store, g: Walked, h: Walked, p: Product, depth: nat, i: nat, extra: set<Key>)
    requires i <= |p.inputs|
  {
    && Inv(s, h)
    && ExtendsBeside(g, h, p.key)
    && OpenUpTo(s, h, p, i)
    && depth + Height(h, p.key) < MAX_DEPTH
    && ReadinessSeen(s, g, h, extra)
  }

  lemma {:induction false} VisitSound(r: Reader, g: Walked, p: Product, depth: nat)
    requires WellKeyed(r.store) && Inv(r.store, g)
    requires p.key in g.products && g.products[p.key] == p
    ensures var (h, reason) := Visit(r, g, p, depth);
            reason == NoReason ==> Sound(r.store, g, h, p.key, depth)
    decreases Remaining(depth), 2, 0
  {
    hide AllSettled, Faithful, Sound, SoundInputs, VisitInputs;
    var s := r.store;
    var (h, reason) := Visit(r, g, p, depth);
    if reason == NoReason {
      if p.key in g.visited {
        TickIsSound(s, g, p.key, depth);
      } else {
        var open := g.(clock := g.clock + 1, edges := g.edges + |p.inputs|, visiting := g.visiting + {p.key});
        OpenSound(s, g, p);
        VisitInputsSound(r, open, p, depth, 0);
        var (done, _) := VisitInputs(r, open, p, depth, 0);
        CloseStep(s, g, open, done, h, p, depth);
      }
    }
  }

  lemma {:induction false} TickIsSound(s: Store, g: Walked, key: Key, depth: nat)
    requires Inv(s, g) && key in g.visited && depth + Height(g, key) < MAX_DEPTH
    ensures Sound(s, g, g.(clock := g.clock + 1), key, depth)
  {
    TickSound(s, g);
    hide Inv, Extends, ReadinessSeen;
    assert forall k :: Height(g.(clock := g.clock + 1), k) == Height(g, k);
  }

  lemma {:induction false} CloseStep(s: Store, g: Walked, open: Walked, done: Walked, h: Walked, p: Product, depth: nat)
    requires Inv(s, g) && p.key !in g.visiting && p.key !in g.visited
    requires open == g.(clock := g.clock + 1, edges := g.edges + |p.inputs|, visiting := g.visiting + {p.key})
    requires SoundInputs(s, open, done, p, depth, |p.inputs|, Targets(p))
    requires h == done.(visiting := done.visiting - {p.key}, visited := done.visited + {p.key})
    ensures Sound(s, g, h, p.key, depth)
  {
    hide *;
    SoundInputsKeep(s, open, done, p, depth, |p.inputs|, Targets(p));
    ClosesIs(s, g, open, done, h, p);
    OpenStored(s, done, p);
    CloseSound(s, g, open, done, h, p);
    CloseExtends(s, g, open, done, h, p);
    CloseReadiness(s, g, open, done, h, p);
    SoundIs(s, g, h, p.key, depth);
  }

  lemma {:induction false} ClosesIs(s: Store, g: Walked, open: Walked, done: Walked, h: Walked, p: Product)
    requires Inv(s, g) && p.key !in g.visiting && p.key !in g.visited && ExtendsBeside(open, done, p.key)
    requires open == g.(clock := g.clock + 1, edges := g.edges + |p.inputs|, visiting := g.visiting + {p.key})
    requires h == done.(visiting := done.visiting - {p.key}, visited := done.visited + {p.key})
    ensures Closes(g, open, done, h, p)
  {
    hide AllSettled, Faithful, ExtendsBeside;
  }

  lemma {:induction false} OpenStored(s: Store, g: Walked, p: Product)
    requires OpenUpTo(s, g, p, |p.inputs|)
    ensures p.key in s && s[p.key] == p
  {
    hide Matches, HeightExact;
  }

  lemma {:induction false} SoundIs(s: Store, g: Walked, h: Walked, key: Key, depth: nat)
    requires Inv(s, h) && Extends(g, h) && ReadinessSeen(s, g, h, {})
    requires forall k {:trigger Height(h, k)} :: k in g.visiting ==> Height(h, k) == Height(g, k)
    requires key in h.visited && depth + Height(h, key) < MAX_DEPTH
    ensures Sound(s, g, h, key, depth)
  {
    hide Inv, Extends, ReadinessSeen;
  }

  ghost function TargetsFrom(p: Product, i: nat): set<Key>
  {
    set j | i <= j < |p.inputs| :: Target(p.key, p.inputs[j])
  }

  lemma {:induction false} VisitInputsSound(r: Reader, g: Walked, p: Product, depth: nat, i: nat)
    requires WellKeyed(r.store) && Inv(r.store, g) && depth < MAX_DEPTH && i <= |p.inputs|
    requires OpenUpTo(r.store, g, p, i) && depth + Height(g, p.key) < MAX_DEPTH
    ensures var (h, reason) := VisitInputs(r, g, p, depth, i);
            reason == NoReason ==> SoundInputs(r.store, g, h, p, depth, |p.inputs|, TargetsFrom(p, i))
    decreases Remaining(depth), 1, |p.inputs| - i
  {
    hide *;
    InputsStep(r, g, p, depth, i);
    if i == |p.inputs| {
      NoInputsSound(r.store, g, p, depth);
    } else {
      var (next, reason) := VisitInput(r, g, p, depth, p.inputs[i]);
      VisitInputSound(r, g, p, depth, i);
      if reason == NoReason {
        SoundInputsKeep(r.store, g, next, p, depth, i + 1, {Target(p.key, p.inputs[i])});
        VisitInputsSound(r, next, p, depth, i + 1);
        var (h, stop) := VisitInputs(r, next, p, depth, i + 1);
        if stop == NoReason {
          StepsJoin(r.store, g, next, h, p, depth, i);
        }
      }
    }
  }

  lemma {:induction false} InputsStep(r: Reader, g: Walked, p: Product, depth: nat, i: nat)
    requires depth < MAX_DEPTH && i <= |p.inputs|
    ensures VisitInputs(r, g, p, depth, i) ==
            if i == |p.inputs| then (g, NoReason)
            else
              var (next, reason) := VisitInput(r, g, p, depth, p.inputs[i]);
              if reason != NoReason then (next, reason) else VisitInputs(r, next, p, depth, i + 1)
  {
    hide VisitInput;
  }

  lemma {:induction false} NoInputsSound(s: Store, g: Walked, p: Product, depth: nat)
    requires Inv(s, g) && OpenUpTo(s, g, p, |p.inputs|) && depth + Height(g, p.key) < MAX_DEPTH
    ensures SoundInputs(s, g, g, p, depth, |p.inputs|, TargetsFrom(p, |p.inputs|))
  {
    hide Inv, OpenUpTo;
  }

  lemma {:induction false} SoundInputsKeep(s: Store, g: Walked, h: Walked, p: Product, depth: nat, i: nat,
                                           extra: set<Key>)
    requires i <= |p.inputs| && SoundInputs(s, g, h, p, depth, i, extra)
    ensures Inv(s, h) && OpenUpTo(s, h, p, i) && depth + Height(h, p.key) < MAX_DEPTH
    ensures ExtendsBeside(g, h, p.key) && ReadinessSeen(s, g, h, extra)
  {
    hide Inv, ExtendsBeside, OpenUpTo, ReadinessSeen;
  }

  lemma {:induction false} StepsJoin(s: Store, g: Walked, next: Walked, h: Walked, p: Product, depth: nat, i: nat)
    requires i < |p.inputs|
    requires SoundInputs(s, g, next, p, depth, i + 1, {Target(p.key, p.inputs[i])})
    requires SoundInputs(s, next, h, p, depth, |p.inputs|, TargetsFrom(p, i + 1))
    ensures SoundInputs(s, g, h, p, depth, |p.inputs|, TargetsFrom(p, i))
  {
    hide Inv, OpenUpTo, ReadinessSeen;
    ReadinessJoins(s, g, next, h, {Target(p.key, p.inputs[i])}, TargetsFrom(p, i + 1));
    assert {Target(p.key, p.inputs[i])} + TargetsFrom(p, i + 1) == TargetsFrom(p, i);
  }

  lemma {:induction false} VisitInputSound(r: Reader, g: Walked, p: Product, depth: nat, i: nat)
    requires WellKeyed(r.store) && Inv(r.store, g) && depth < MAX_DEPTH && i < |p.inputs|
    requires OpenUpTo(r.store, g, p, i) && depth + Height(g, p.key) < MAX_DEPTH
    ensures var (h, reason) := VisitInput(r, g, p, depth, p.inputs[i]);
            reason == NoReason ==>
              SoundInputs(r.store, g, h, p, depth, i + 1, {Target(p.key, p.inputs[i])})
    decreases Remaining(depth), 0, 0
  {
    hide Inv, Extends, ReadinessSeen, OpenUpTo, Sound, SoundInputs, ProducerReady, InputCompatibility, Fetch, Visit;
    var s := r.store;
    var input := p.inputs[i];
    var key := Target(p.key, input);
    var (h, reason) := VisitInput(r, g, p, depth, input);
    if reason == NoReason {
      var (found, _) := Fetch(r, g, key);
      FetchSound(r, g, key);
      var producer := found.products[key];
      assert producer.key == key;
      VisitSound(r, found, producer, depth + 1);
      var (below, _) := Visit(r, found, producer, depth + 1);
      RaiseStep(s, g, found, below, h, p, depth, i);
    }
  }

  lemma {:induction false} RaiseStep(s: Store, g: Walked, found: Walked, below: Walked, h: Walked, p: Product,
                                     depth: nat, i: nat)
    requires i < |p.inputs| && OpenUpTo(s, g, p, i) && depth + Height(g, p.key) < MAX_DEPTH
    requires Extends(g, found) && found.heights == g.heights && found.visited == g.visited
    requires ReadinessSeen(s, g, found, {})
    requires Sound(s, found, below, Target(p.key, p.inputs[i]), depth + 1)
    requires Matches(s, p.key, p.inputs[i])
    requires var key := Target(p.key, p.inputs[i]);
             h == below.(heights := below.heights[p.key := Max(Height(below, p.key), 1 + Height(below, key))],
                         notReady := if !ProducerReady(s[key]) && below.notReady.None? then Some(key)
                                     else below.notReady)
    ensures SoundInputs(s, g, h, p, depth, i + 1, {Target(p.key, p.inputs[i])})
  {
    hide Matches, ReadinessSeen;
    var none: set<Key> := {};
    ReadinessJoins(s, g, found, below, none, none);
    assert none + none == none;
    assert forall k :: Height(found, k) == Height(g, k);
    assert Raises(s, g, below, h, p, i) by {
      hide Inv, ProducerReady;
    }
    assert p.key !in below.visited && TargetsUpTo(p, i) <= g.visited;
    hide Raises, Inv, Extends, ExtendsBeside, OpenUpTo;
    RaiseSound(s, g, below, h, p, i);
    RaiseOpens(s, g, below, h, p, i);
    RaiseReadiness(s, g, below, h, p, i);
  }
}
