/** The composition check succeeds exactly on acceptable graphs, with exact heights and readiness. */
module CompositionTheorems {
  import opened Products
  import opened Compatibility
  import opened Digraph
  import opened Composition
  import Sums

  /** The whole check of one root product. */
  function Check(r: Reader, root: Product): (Walked, Reason)
  {
    Visit(r, Start(root), root, 0)
  }

  lemma {:induction false} StartSound(s: Store, root: Product)
    requires root.key in s && s[root.key] == root
    ensures Inv(s, Start(root))
  {
    var g := Start(root);
    assert g.visited + g.visiting == {};
    assert |g.products| == 1;
  }

  /** Edges of the adjacency map are declared inputs. */
  lemma {:induction false} EdgeIsInput(s: Store, k: Key, t: Key)
    requires t in Succ(Adjacency(s), k)
    ensures k in s && t in Targets(s[k])
    ensures exists i :: 0 <= i < |s[k].inputs| && t == Target(s[k].key, s[k].inputs[i])
  {
  }

  lemma {:induction false} InputIsEdge(s: Store, p: Product, i: nat)
    requires p.key in s && s[p.key] == p && i < |p.inputs|
    ensures Target(p.key, p.inputs[i]) in Targets(p)
    ensures Target(p.key, p.inputs[i]) in Succ(Adjacency(s), p.key)
  {
  }

  /** Chains from a finished product are at most as long as its height. */
  lemma {:induction false} HeightBounds(s: Store, g: Walked, k: Key, x: Key, n: nat)
    requires AllSettled(s, g) && k in g.visited && Walk(Adjacency(s), k, x, n)
    ensures n <= Height(g, k) && x in g.visited
    decreases n
  {
    if n > 0 {
      var m :| m in Succ(Adjacency(s), k) && Walk(Adjacency(s), m, x, n - 1);
      assert Settled(s, g, k);
      EdgeIsInput(s, k, m);
      hide Targets, InputsMatch, AllSettled;
      HeightBounds(s, g, m, x, n - 1);
    }
  }

  /** Some chain from a finished product is as long as its height. */
  lemma {:induction false} HeightRealised(s: Store, g: Walked, k: Key) returns (x: Key)
    requires AllSettled(s, g) && k in g.visited
    ensures Walk(Adjacency(s), k, x, Height(g, k))
    decreases Height(g, k)
  {
    hide Targets, InputsMatch;
    assert Settled(s, g, k);
    if Height(g, k) == 0 {
      x := k;
    } else {
      var t :| t in Targets(s[k]) && Height(g, k) == 1 + Height(g, t);
      x := HeightRealised(s, g, t);
      assert t in Succ(Adjacency(s), k);
    }
  }

  /** Everything reachable from a finished product is finished. */
  lemma {:induction false} VisitedClosed(s: Store, g: Walked, k: Key, x: Key)
    requires AllSettled(s, g) && k in g.visited && Reachable(s, k, x)
    ensures x in g.visited
  {
    var n: nat :| Walk(Adjacency(s), k, x, n);
    HeightBounds(s, g, k, x, n);
  }

  /** Nothing is open or finished that the product being visited does not lead to or is not led to by. */
  ghost predicate VisitedFrom(s: Store, root: Key, g: Walked)
  {
    forall k {:trigger k in g.visited} :: k in g.visited ==> Reachable(s, root, k)
  }

  lemma {:induction false} VisitReaches(r: Reader, root: Key, g: Walked, p: Product, depth: nat)
    requires WellKeyed(r.store) && p.key in r.store && r.store[p.key] == p
    requires Faithful(r.store, g)
    requires VisitedFrom(r.store, root, g) && Reachable(r.store, root, p.key)
    ensures var h := Visit(r, g, p, depth).0;
            VisitedFrom(r.store, root, h) && Faithful(r.store, h)
    decreases Remaining(depth), 2, 0
  {
    hide Reachable, Targets;
    if !Expired(r, g.clock) && p.key !in g.visiting && p.key !in g.visited && depth < MAX_DEPTH &&
       g.edges + |p.inputs| <= MAX_EDGES {
      var open := g.(clock := g.clock + 1, edges := g.edges + |p.inputs|, visiting := g.visiting + {p.key});
      VisitInputsReaches(r, root, open, p, depth, 0);
    }
  }

  lemma {:induction false} VisitInputsReaches(r: Reader, root: Key, g: Walked, p: Product, depth: nat, i: nat)
    requires WellKeyed(r.store) && p.key in r.store && r.store[p.key] == p
    requires Faithful(r.store, g)
    requires VisitedFrom(r.store, root, g) && Reachable(r.store, root, p.key)
    requires depth < MAX_DEPTH && i <= |p.inputs|
    ensures var h := VisitInputs(r, g, p, depth, i).0;
            VisitedFrom(r.store, root, h) && Faithful(r.store, h)
    decreases Remaining(depth), 1, |p.inputs| - i
  {
    hide Reachable, VisitInput, VisitedFrom, Faithful;
    if i < |p.inputs| {
      VisitInputReaches(r, root, g, p, depth, i);
      var (next, reason) := VisitInput(r, g, p, depth, p.inputs[i]);
      if reason == NoReason {
        VisitInputsReaches(r, root, next, p, depth, i + 1);
      }
    }
  }

  lemma {:induction false} VisitInputReaches(r: Reader, root: Key, g: Walked, p: Product, depth: nat, i: nat)
    requires WellKeyed(r.store) && p.key in r.store && r.store[p.key] == p
    requires Faithful(r.store, g)
    requires VisitedFrom(r.store, root, g) && Reachable(r.store, root, p.key)
    requires depth < MAX_DEPTH && i < |p.inputs|
    ensures var h := VisitInput(r, g, p, depth, p.inputs[i]).0;
            VisitedFrom(r.store, root, h) && Faithful(r.store, h)
    decreases Remaining(depth), 0, 0
  {
    hide Reachable, Targets, InputCompatibility, ProducerReady, Visit, VisitedFrom, Faithful, Fetch;
    var key := Target(p.key, p.inputs[i]);
    var next := VisitInput(r, g, p, depth, p.inputs[i]).0;
    if key.ns != p.key.ns {
    } else {
      FetchFaithful(r, g, key);
      var (found, reason) := Fetch(r, g, key);
      VisitedSame(r.store, root, g, found);
      if reason == NoReason {
        var producer := found.products[key];
        ReachableInput(r.store, root, p, i);
        VisitReaches(r, root, found, producer, depth + 1);
        var below := Visit(r, found, producer, depth + 1).0;
        VisitedSame(r.store, root, below, next);
        FaithfulSame(r.store, below, next);
      }
    }
  }

  lemma {:induction false} FaithfulSame(s: Store, g: Walked, h: Walked)
    requires Faithful(s, g) && h.products == g.products
    ensures Faithful(s, h)
  {
  }

  lemma {:induction false} VisitedSame(s: Store, root: Key, g: Walked, h: Walked)
    requires VisitedFrom(s, root, g) && h.visited == g.visited
    ensures VisitedFrom(s, root, h)
  {
  }

  lemma {:induction false} ReachableInput(s: Store, root: Key, p: Product, i: nat)
    requires p.key in s && s[p.key] == p && Reachable(s, root, p.key) && i < |p.inputs|
    ensures Reachable(s, root, Target(p.key, p.inputs[i]))
  {
    InputIsEdge(s, p, i);
    ReachExtends(Adjacency(s), root, p.key, Target(p.key, p.inputs[i]));
  }

  // ---------------------------------------------------------------- soundness

  /** The exact length of the longest chain from k. */
  ghost predicate Longest(s: Store, k: Key, h: nat)
  {
    && (forall x, n: nat :: Walk(Adjacency(s), k, x, n) ==> n <= h)
    && (exists x :: Walk(Adjacency(s), k, x, h))
  }

  /** No product but the root itself stands between the root and readiness. */
  ghost predicate ProducersReady(s: Store, root: Key)
  {
    forall k, t :: Reachable(s, root, k) && k in s && t in Targets(s[k]) && t in s ==> ProducerReady(s[t])
  }

  lemma {:induction false} LongestHeight(s: Store, g: Walked, k: Key)
    requires AllSettled(s, g) && k in g.visited
    ensures Longest(s, k, Height(g, k))
  {
    var x := HeightRealised(s, g, k);
    forall y, n: nat | Walk(Adjacency(s), k, y, n)
      ensures n <= Height(g, k)
    {
      HeightBounds(s, g, k, y, n);
    }
  }

  /** A check without a reason has accepted an acceptable graph, with exact heights for all of it. */
  lemma {:induction false} AcceptedIsAcceptable(r: Reader, root: Product)
    requires WellKeyed(r.store) && root.key in r.store && r.store[root.key] == root
    ensures var (h, reason) := Check(r, root);
            reason == NoReason ==>
              && Acceptable(r.store, root.key)
              && h.visited == ReachSet(r.store, root.key)
              && (forall k :: k in h.visited ==> Longest(r.store, k, Height(h, k)))
              && (h.notReady.None? <==> ProducersReady(r.store, root.key))
  {
    var s := r.store;
    var (h, reason) := Check(r, root);
    if reason == NoReason {
      StartSound(s, root);
      VisitSound(r, Start(root), root, 0);
      ReachesItself(Adjacency(s), root.key);
      VisitReaches(r, root.key, Start(root), root, 0);
      SoundStart(s, root, h);
      hide Check, Visit, Inv, Sound, Acceptable, AllSettled, ReachSet, ProducersReady, Longest, ReadinessSeen;
      VisitedIsReachSet(s, root.key, h);
      forall k | k in h.visited
        ensures Longest(s, k, Height(h, k))
      {
        LongestHeight(s, h, k);
      }
      SettledIsAcceptable(s, root.key, h);
      ReadinessIsExact(s, root, h);
    }
  }

  lemma {:induction false} SoundStart(s: Store, root: Product, h: Walked)
    requires Sound(s, Start(root), h, root.key, 0)
    ensures Inv(s, h) && AllSettled(s, h) && root.key in h.visited && h.visiting == {}
    ensures Height(h, root.key) < MAX_DEPTH && ReadinessSeen(s, Start(root), h, {})
  {
    hide ReadinessSeen, Faithful, Settled;
  }

  lemma {:induction false} VisitedIsReachSet(s: Store, root: Key, h: Walked)
    requires Inv(s, h) && root in h.visited && VisitedFrom(s, root, h)
    ensures h.visited == ReachSet(s, root)
  {
    forall k | k in ReachSet(s, root)
      ensures k in h.visited
    {
      VisitedClosed(s, h, root, k);
    }
  }

  lemma {:induction false} SettledIsAcceptable(s: Store, root: Key, h: Walked)
    requires Inv(s, h) && root in h.visited && h.visited == ReachSet(s, root)
    requires h.visiting == {} && Height(h, root) < MAX_DEPTH
    ensures Acceptable(s, root)
  {
    hide WithinBudget, Settled, ReachSet;
    forall k | Reachable(s, root, k)
      ensures k in s && InputsMatch(s, s[k])
    {
      VisitedClosed(s, h, root, k);
      assert Settled(s, h, k);
      SettledMatches(s, h, k);
    }
    forall k, n: nat | Walk(Adjacency(s), root, k, n)
      ensures n < MAX_DEPTH
    {
      HeightBounds(s, h, root, k, n);
    }
    VisitedFits(s, root, h);
    ReachesItself(Adjacency(s), root);
  }

  lemma {:induction false} SettledMatches(s: Store, h: Walked, k: Key)
    requires Settled(s, h, k)
    ensures k in s && InputsMatch(s, s[k])
  {
  }

  lemma {:induction false} VisitedFits(s: Store, root: Key, h: Walked)
    requires WithinBudget(s, h) && h.visiting == {} && h.visited == ReachSet(s, root)
    ensures |ReachSet(s, root)| <= MAX_PRODUCTS
    ensures Sums.Total(Weights(s), ReachSet(s, root)) <= MAX_EDGES
  {
    SubsetCount(h.visited, h.products.Keys);
    assert h.visited + h.visiting == h.visited;
    assert |h.products.Keys| == |h.products|;
  }

  lemma {:induction false} ReadinessIsExact(s: Store, root: Product, h: Walked)
    requires h.visited == ReachSet(s, root.key) && ReadinessSeen(s, Start(root), h, {})
    ensures h.notReady.None? <==> ProducersReady(s, root.key)
  {
    var g := Start(root);
    hide Targets, ProducerReady, Reachable;
    if h.notReady.None? {
      forall k, t | Reachable(s, root.key, k) && k in s && t in Targets(s[k]) && t in s
        ensures ProducerReady(s[t])
      {
        assert k in h.visited - g.visited;
      }
    } else {
      var k :| k in h.visited - g.visited && k in s && h.notReady.value in Targets(s[k]);
      assert Reachable(s, root.key, k);
    }
  }

  // ---------------------------------------------------------------- completeness

  /** Everything read so far is reachable from the root. */
  ghost predicate ReadFrom(s: Store, root: Key, g: Walked)
  {
    g.products.Keys <= ReachSet(s, root)
  }

  /** Every open product leads to k by at least one edge. */
  ghost predicate OpenLeadTo(s: Store, g: Walked, k: Key)
  {
    forall v {:trigger v in g.visiting} :: v in g.visiting ==> exists n: nat :: n > 0 && Walk(Adjacency(s), v, k, n)
  }

  lemma {:induction false} VisitComplete(r: Reader, root: Key, g: Walked, p: Product, depth: nat)
    requires WellKeyed(r.store) && Quiet(r) && Acceptable(r.store, root)
    requires Inv(r.store, g) && p.key in g.products && g.products[p.key] == p
    requires ReadFrom(r.store, root, g) && Walk(Adjacency(r.store), root, p.key, depth)
    requires OpenLeadTo(r.store, g, p.key)
    ensures var (h, reason) := Visit(r, g, p, depth);
            reason == NoReason && ReadFrom(r.store, root, h)
    decreases Remaining(depth), 2, 0
  {
    hide Acceptable, AllSettled, Faithful, ReachSet, ReadFrom, OpenLeadTo, OpenOrHere, OpenUpTo, VisitInputs;
    var s := r.store;
    NotOpen(s, root, g, p.key, depth);
    DepthFits(s, root, g, p.key, depth);
    ReadSame(s, root, g);
    if p.key !in g.visited {
      InBudget(s, root, g, p);
      var open := g.(clock := g.clock + 1, edges := g.edges + |p.inputs|, visiting := g.visiting + {p.key});
      OpenSound(s, g, p);
      OpenLeads(s, g, open, p.key);
      VisitInputsComplete(r, root, open, p, depth, 0);
      ReadSame(s, root, VisitInputs(r, open, p, depth, 0).0);
    }
  }

  lemma {:induction false} ReadSame(s: Store, root: Key, g: Walked)
    requires ReadFrom(s, root, g)
    ensures forall h: Walked {:trigger ReadFrom(s, root, h)} :: h.products == g.products ==> ReadFrom(s, root, h)
  {
  }

  /** In an acceptable graph the product being visited is not open already. */
  lemma {:induction false} NotOpen(s: Store, root: Key, g: Walked, k: Key, depth: nat)
    requires Acceptable(s, root) && Walk(Adjacency(s), root, k, depth) && OpenLeadTo(s, g, k)
    ensures k !in g.visiting && depth < MAX_DEPTH
  {
    if k in g.visiting {
      var n: nat :| n > 0 && Walk(Adjacency(s), k, k, n);
      assert Reachable(s, root, k);
      AcceptableIsAcyclic(s, root, k, n);
    }
  }

  lemma {:induction false} DepthFits(s: Store, root: Key, g: Walked, k: Key, depth: nat)
    requires Acceptable(s, root) && Walk(Adjacency(s), root, k, depth) && AllSettled(s, g)
    ensures k in g.visited ==> depth + Height(g, k) < MAX_DEPTH
  {
    hide AllSettled;
    if k in g.visited {
      var x := HeightRealised(s, g, k);
      Join(Adjacency(s), root, k, x, depth, Height(g, k));
    }
  }

  lemma {:induction false} InBudget(s: Store, root: Key, g: Walked, p: Product)
    requires Acceptable(s, root) && WithinBudget(s, g) && ReadFrom(s, root, g)
    requires p.key in g.products && g.products[p.key] == p && p.key !in g.visited && p.key !in g.visiting
    ensures g.edges + |p.inputs| <= MAX_EDGES
    ensures p.key in s && s[p.key] == p
  {
    var w := Weights(s);
    Sums.Add(w, g.visited + g.visiting, p.key);
    assert g.visited + g.visiting + {p.key} <= ReachSet(s, root) <= w.Keys;
    Sums.Grows(w, g.visited + g.visiting + {p.key}, ReachSet(s, root));
  }

  lemma {:induction false} OpenLeads(s: Store, g: Walked, open: Walked, k: Key)
    requires OpenLeadTo(s, g, k) && open.visiting == g.visiting + {k}
    ensures OpenOrHere(s, open, k)
  {
    forall v | v in open.visiting
      ensures Reachable(s, v, k)
    {
      if v == k {
        ReachesItself(Adjacency(s), k);
      } else {
        assert v in g.visiting;
      }
    }
  }

  /** Every open product leads to k, which may be one of them. */
  ghost predicate OpenOrHere(s: Store, g: Walked, k: Key)
  {
    forall v {:trigger Reachable(s, v, k)} :: v in g.visiting ==> Reachable(s, v, k)
  }

  lemma {:induction false} VisitInputsComplete(r: Reader, root: Key, g: Walked, p: Product, depth: nat, i: nat)
    requires WellKeyed(r.store) && Quiet(r) && Acceptable(r.store, root)
    requires Inv(r.store, g) && depth < MAX_DEPTH && i <= |p.inputs|
    requires OpenUpTo(r.store, g, p, i) && depth + Height(g, p.key) < MAX_DEPTH
    requires ReadFrom(r.store, root, g) && Walk(Adjacency(r.store), root, p.key, depth)
    requires OpenOrHere(r.store, g, p.key)
    ensures var (h, reason) := VisitInputs(r, g, p, depth, i);
            reason == NoReason && ReadFrom(r.store, root, h)
    decreases Remaining(depth), 1, |p.inputs| - i
  {
    hide Acceptable, WithinBudget, AllSettled, ReadFrom, Targets, Matches, VisitInput, OpenOrHere, ReadinessSeen;
    if i < |p.inputs| {
      VisitInputComplete(r, root, g, p, depth, i);
      var (next, _) := VisitInput(r, g, p, depth, p.inputs[i]);
      VisitInputSound(r, g, p, depth, i);
      OpenSame(r.store, g, next, p.key);
      VisitInputsComplete(r, root, next, p, depth, i + 1);
    }
  }

  lemma {:induction false} OpenSame(s: Store, g: Walked, h: Walked, k: Key)
    requires OpenOrHere(s, g, k) && h.visiting == g.visiting
    ensures OpenOrHere(s, h, k)
  {
  }

  lemma {:induction false} VisitInputComplete(r: Reader, root: Key, g: Walked, p: Product, depth: nat, i: nat)
    requires WellKeyed(r.store) && Quiet(r) && Acceptable(r.store, root)
    requires Inv(r.store, g) && depth < MAX_DEPTH && i < |p.inputs|
    requires OpenUpTo(r.store, g, p, i)
    requires ReadFrom(r.store, root, g) && Walk(Adjacency(r.store), root, p.key, depth)
    requires OpenOrHere(r.store, g, p.key)
    ensures var (h, reason) := VisitInput(r, g, p, depth, p.inputs[i]);
            reason == NoReason && ReadFrom(r.store, root, h)
    decreases Remaining(depth), 0, 0
  {
    var s := r.store;
    assert p.key in g.visiting && p.key in s && s[p.key] == p;
    hide Acceptable, Inv, OpenUpTo, Targets, ProducerReady, InputCompatibility, Visit, Fetch, OpenOrHere, ReachSet;
    var key := Target(p.key, p.inputs[i]);
    InputAcceptable(s, root, g, p, i, depth);
    FetchComplete(r, root, g, key);
    FetchSound(r, g, key);
    var found := Fetch(r, g, key).0;
    OpenLeadsOn(s, g, found, p, i);
    VisitComplete(r, root, found, found.products[key], depth + 1);
  }

  lemma {:induction false} InputAcceptable(s: Store, root: Key, g: Walked, p: Product, i: nat, depth: nat)
    requires i < |p.inputs| && Acceptable(s, root) && OpenUpTo(s, g, p, i)
    requires Walk(Adjacency(s), root, p.key, depth)
    ensures Matches(s, p.key, p.inputs[i]) && Target(p.key, p.inputs[i]) in ReachSet(s, root)
    ensures Walk(Adjacency(s), root, Target(p.key, p.inputs[i]), depth + 1)
  {
    hide Targets;
    assert Reachable(s, root, p.key);
    assert InputsMatch(s, p);
    assert Matches(s, p.key, p.inputs[i]);
    InputIsEdge(s, p, i);
    Extend(Adjacency(s), root, p.key, Target(p.key, p.inputs[i]), depth);
    assert Reachable(s, root, Target(p.key, p.inputs[i]));
  }

  lemma {:induction false} FetchComplete(r: Reader, root: Key, g: Walked, key: Key)
    requires Quiet(r) && Acceptable(r.store, root) && ReadFrom(r.store, root, g) && key in ReachSet(r.store, root)
    ensures Fetch(r, g, key).1 == NoReason && ReadFrom(r.store, root, Fetch(r, g, key).0)
  {
    if key !in g.products {
      SubsetCount(g.products.Keys + {key}, ReachSet(r.store, root));
      assert |g.products.Keys + {key}| == |g.products| + 1;
    }
  }

  lemma {:induction false} OpenLeadsOn(s: Store, g: Walked, found: Walked, p: Product, i: nat)
    requires OpenOrHere(s, g, p.key) && found.visiting == g.visiting
    requires p.key in g.visiting && p.key in s && s[p.key] == p && i < |p.inputs|
    ensures OpenLeadTo(s, found, Target(p.key, p.inputs[i]))
  {
    var key := Target(p.key, p.inputs[i]);
    forall v | v in found.visiting
      ensures exists n: nat :: n > 0 && Walk(Adjacency(s), v, key, n)
    {
      assert Reachable(s, v, p.key);
      var n: nat :| Walk(Adjacency(s), v, p.key, n);
      InputIsEdge(s, p, i);
      Extend(Adjacency(s), v, p.key, key, n);
    }
  }

  /** With every read answered in time, the check accepts every acceptable graph. */
  lemma {:induction false} AcceptableIsAccepted(r: Reader, root: Product)
    requires WellKeyed(r.store) && root.key in r.store && r.store[root.key] == root
    requires Quiet(r) && Acceptable(r.store, root.key)
    ensures Check(r, root).1 == NoReason
  {
    StartSound(r.store, root);
    ReachesItself(Adjacency(r.store), root.key);
    VisitComplete(r, root.key, Start(root), root, 0);
  }

  /** The memoised, budgeted search decides exactly the declarative bounds. */
  lemma {:induction false} CheckIsExact(r: Reader, root: Product)
    requires WellKeyed(r.store) && root.key in r.store && r.store[root.key] == root && Quiet(r)
    ensures Check(r, root).1 == NoReason <==> Acceptable(r.store, root.key)
  {
    AcceptedIsAcceptable(r, root);
    if Acceptable(r.store, root.key) {
      AcceptableIsAccepted(r, root);
    }
  }
}
