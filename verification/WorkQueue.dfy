/**
 The reconcile loop as a transition system: watches, the deduplicating work queue, timed retries, and runs
 whose reads and final status write are spread over time.
 */
module WorkQueue {
  import opened Products
  import opened Digraph
  import opened Composition
  import opened Reconcile
  import CompositionTheorems
  import Order

  /** Everything a run in progress may have observed: each store and local state since it began. */
  datatype Progress = Progress(stores: seq<Store>, locals: seq<LocalState>)

  /**
   The cluster as the controller sees it. `drifted` holds the products whose recorded status rests on an
   observation that no watch reports: a local state that has changed since, or a read failure hidden by a
   later finding. `missed` holds the consumers of events for which listing them failed, until their next run.
   */
  datatype System = System(
    store: Store,
    local: map<Key, LocalState>,
    queue: set<Key>,
    running: map<Key, Progress>,
    timers: set<Key>,
    drifted: set<Key>,
    missed: set<Key>)

  const Unobserved := Observation(false, "")

  function LocalOf(local: map<Key, LocalState>, k: Key): LocalState
  {
    if k in local then local[k] else LocalState(Unobserved, Unobserved, Unobserved)
  }

  predicate DeclaresAny(p: Product)
  {
    p.declares.source || p.declares.connector || p.declares.contracts
  }

  // ---------------------------------------------------------------- reverse dependencies

  /** The consumers an event about k enqueues: all transitive ones under composition, else the direct ones. */
  ghost predicate Requested(s: Store, composition: bool, k: Key, consumer: Key)
  {
    consumer in s &&
    if composition then exists n: nat :: n > 0 && Walk(Adjacency(s), consumer, k, n)
    else k in Targets(s[consumer])
  }

  ghost function Requests(s: Store, composition: bool, k: Key): set<Key>
  {
    set consumer | consumer in s && Requested(s, composition, k, consumer)
  }

  // ---------------------------------------------------------------- steps

  ghost function Remember(running: map<Key, Progress>, s: Store): map<Key, Progress>
  {
    map k | k in running :: Progress(running[k].stores + [s], running[k].locals)
  }

  /**
   Both watches deliver a changed object: its own key is queued, and the keys of its consumers are unless listing
   the products fails.
   */
  ghost function Notify(sys: System, c: Settings, k: Key, s: Store, listed: bool): System
  {
    var consumers := Requests(s, c.composition, k);
    sys.(store := s,
         queue := sys.queue + {k} + (if listed then consumers else {}),
         running := Remember(sys.running, s),
         missed := if listed then sys.missed else sys.missed + consumers)
  }

  ghost predicate Put(sys: System, next: System, c: Settings, p: Product, listed: bool)
  {
    next == Notify(sys, c, p.key, sys.store[p.key := p], listed)
  }

  ghost predicate Delete(sys: System, next: System, c: Settings, k: Key, listed: bool)
  {
    next == Notify(sys, c, k, sys.store - {k}, listed)
  }

  /** An external resource changes; the controller watches none of them. */
  ghost predicate Drift(sys: System, next: System, k: Key, l: LocalState)
  {
    next == sys.(
      local := sys.local[k := l],
      drifted := if k in sys.store && DeclaresAny(sys.store[k]) then sys.drifted + {k} else sys.drifted,
      running := map x | x in sys.running ::
                   if x == k then Progress(sys.running[x].stores, sys.running[x].locals + [l]) else sys.running[x])
  }

  /** A timed retry comes due. */
  ghost predicate Fire(sys: System, next: System, k: Key)
  {
    k in sys.timers && next == sys.(timers := sys.timers - {k}, queue := sys.queue + {k})
  }

  /** A worker takes a key that no other worker is processing. */
  ghost predicate Begin(sys: System, next: System, k: Key)
  {
    k in sys.queue && k !in sys.running &&
    next == sys.(queue := sys.queue - {k},
                 running := sys.running[k := Progress([sys.store], [LocalOf(sys.local, k)])],
                 drifted := sys.drifted - {k},
                 missed := sys.missed - {k})
  }

  /** The view shows k as one of the stores does. */
  ghost predicate Held(view: Store, stores: seq<Store>, k: Key)
  {
    exists i :: 0 <= i < |stores| && Same(view, stores[i], k)
  }

  /** Every key was read from one of the stores that existed during the run. */
  ghost predicate Mixed(view: Store, stores: seq<Store>)
  {
    forall k :: Held(view, stores, k)
  }

  /** The worker finishes the run for k with what it read, and writes the status if it changed. */
  ghost predicate Commit(sys: System, next: System, c: Settings, k: Key, r: Reader, l: LocalState, listed: bool)
  {
    && k in sys.running
    && Mixed(r.store, sys.running[k].stores) && (forall v :: v in r.direct ==> Mixed(v.store, sys.running[k].stores))
    && l in sys.running[k].locals
    && var idle := sys.(running := sys.running - {k});
       if k in r.failing then next == idle.(queue := idle.queue + {k})
       else if k !in r.store then next == idle
       else
         var out := Run(r, c, l, r.store[k]);
         if out.status != r.store[k].status && !Same(r.store, sys.store, k) then
           next == idle.(queue := idle.queue + {k})
         else
           var wrote := if out.status == r.store[k].status then idle
                        else Notify(idle, c, k, sys.store[k := sys.store[k].(status := out.status)], listed);
           next == if out.failed then wrote.(queue := wrote.queue + {k})
                   else wrote.(timers := if out.later then wrote.timers + {k} else wrote.timers,
                               drifted := if out.hidden then wrote.drifted + {k} else wrote.drifted)
  }

  datatype Step =
    | PutStep(p: Product, listed: bool)
    | DeleteStep(k: Key, listed: bool)
    | DriftStep(k: Key, l: LocalState)
    | FireStep(k: Key)
    | BeginStep(k: Key)
    | CommitStep(k: Key, r: Reader, l: LocalState, listed: bool)
    | PauseStep

  ghost predicate Next(sys: System, next: System, c: Settings, step: Step)
  {
    match step
    case PutStep(p, listed) => Put(sys, next, c, p, listed)
    case DeleteStep(k, listed) => Delete(sys, next, c, k, listed)
    case DriftStep(k, l) => Drift(sys, next, k, l)
    case FireStep(k) => Fire(sys, next, k)
    case BeginStep(k) => Begin(sys, next, k)
    case CommitStep(k, r, l, listed) => Commit(sys, next, c, k, r, l, listed)
    case PauseStep => next == sys
  }

  /** The controller starts against any store with every product queued. */
  ghost predicate Init(sys: System)
  {
    WellKeyed(sys.store) && sys.queue == sys.store.Keys && sys.running == map[] && sys.timers == {}
    && sys.drifted == {} && sys.missed == {}
  }

  // ---------------------------------------------------------------- the invariant

  /** The recorded status is the one a run without failures would compute now. */
  ghost predicate UpToDate(s: Store, local: map<Key, LocalState>, c: Settings, k: Key)
    requires k in s
  {
    s[k].status == Run(Quieted(s), c, LocalOf(local, k), s[k]).status
  }

  /** What a run for k has observed so far still holds, unless k is queued again. */
  ghost predicate Current(sys: System, c: Settings, k: Key)
    requires k in sys.running
  {
    && (forall i {:trigger sys.running[k].stores[i]} :: 0 <= i < |sys.running[k].stores| ==>
          && WellKeyed(sys.running[k].stores[i])
          && (k !in sys.queue ==> Same(sys.store, sys.running[k].stores[i], k))
          && (k !in sys.queue && k !in sys.missed ==> AgreeOn(sys.store, sys.running[k].stores[i], c.composition, k)))
    && (k !in sys.queue && k in sys.store && DeclaresAny(sys.store[k]) && k !in sys.drifted ==>
          forall l :: l in sys.running[k].locals ==> l == LocalOf(sys.local, k))
    && (k !in sys.queue && k in sys.store && k in sys.drifted ==> DeclaresAny(sys.store[k]))
  }

  ghost predicate Idle(sys: System, k: Key)
  {
    k !in sys.queue && k !in sys.running
  }

  /** Every successful run of such a product requests a timed retry. */
  predicate Renews(c: Settings, p: Product)
  {
    DeclaresAny(p) || (c.composition && p.inputs != [])
  }

  /** An idle product's status is what a run would compute now, or it has drifted or been missed. */
  ghost predicate Rests(sys: System, c: Settings, k: Key)
    requires k in sys.store
  {
    && (k !in sys.drifted && k !in sys.missed ==> UpToDate(sys.store, sys.local, c, k))
    && (Renews(c, sys.store[k]) || k in sys.drifted ==> k in sys.timers)
    && Stamped(sys.store[k])
  }

  ghost predicate InvAt(sys: System, c: Settings, k: Key)
  {
    && (k in sys.running ==> Current(sys, c, k)) && (k in sys.store && Idle(sys, k) ==> Rests(sys, c, k))
    && (k in sys.missed && k !in sys.queue && k in sys.store ==> sys.store[k].inputs != [])
  }

  ghost predicate Inv(sys: System, c: Settings)
  {
    WellKeyed(sys.store) && forall k {:trigger InvAt(sys, c, k)} :: InvAt(sys, c, k)
  }

  // ---------------------------------------------------------------- footprints

  /** Stores that agree on a footprint have the same footprint. */
  lemma {:induction false} FootprintShared(a: Store, b: Store, k: Key, x: Key, n: nat)
    requires forall y {:trigger Same(a, b, y)} {:trigger Reachable(a, k, y)} :: Reachable(a, k, y) ==> Same(a, b, y)
    requires Walk(Adjacency(b), k, x, n)
    ensures Reachable(a, k, x)
    decreases n
  {
    hide Targets;
    if n == 0 {
      ReachesItself(Adjacency(a), k);
    } else {
      var m := LastEdge(Adjacency(b), k, x, n);
      FootprintShared(a, b, k, m, n - 1);
      assert Same(a, b, m);
      assert x in Succ(Adjacency(a), m);
      ReachExtends(Adjacency(a), k, m, x);
    }
  }

  lemma {:induction false} AgreeSymmetric(a: Store, b: Store, composition: bool, k: Key)
    requires AgreeOn(a, b, composition, k)
    ensures AgreeOn(b, a, composition, k)
  {
    forall x | InFootprint(b, composition, k, x)
      ensures Same(b, a, x)
    {
      if composition {
        FootprintBelowKey(a, b, k);
        var n: nat :| Walk(Adjacency(b), k, x, n);
        FootprintShared(a, b, k, x, n);
        assert InFootprint(a, composition, k, x);
      } else {
        assert InFootprint(a, composition, k, k);
        assert Same(a, b, k);
        assert InFootprint(a, composition, k, x);
      }
      assert Same(a, b, x);
    }
  }

  lemma {:induction false} FootprintBelowKey(a: Store, b: Store, k: Key)
    requires AgreeOn(a, b, true, k)
    ensures SameBelow(a, b, k)
  {
    forall x | Reachable(a, k, x)
      ensures Same(a, b, x)
    {
      assert InFootprint(a, true, k, x);
    }
  }

  lemma {:induction false} AgreeTransitive(a: Store, b: Store, d: Store, composition: bool, k: Key)
    requires AgreeOn(a, b, composition, k) && AgreeOn(a, d, composition, k)
    ensures AgreeOn(b, d, composition, k)
  {
    AgreeSymmetric(a, b, composition, k);
    forall x | InFootprint(b, composition, k, x)
      ensures Same(b, d, x)
    {
      assert Same(b, a, x);
      AgreeSame(a, b, composition, k, x);
      assert Same(a, d, x);
    }
  }

  lemma {:induction false} AgreeSame(a: Store, b: Store, composition: bool, k: Key, x: Key)
    requires AgreeOn(a, b, composition, k) && InFootprint(b, composition, k, x)
    ensures InFootprint(a, composition, k, x)
  {
    if composition {
      FootprintBelowKey(a, b, k);
      var n: nat :| Walk(Adjacency(b), k, x, n);
      FootprintShared(a, b, k, x, n);
    } else {
      assert InFootprint(a, composition, k, k);
      assert Same(a, b, k);
    }
  }

  /** A mixture of stores that all agree on a footprint agrees on it too. */
  lemma {:induction false} MixedAgrees(s: Store, view: Store, stores: seq<Store>, composition: bool, k: Key)
    requires Mixed(view, stores)
    requires forall i {:trigger stores[i]} :: 0 <= i < |stores| ==> AgreeOn(s, stores[i], composition, k)
    ensures AgreeOn(s, view, composition, k)
  {
    hide InFootprint;
    forall x | InFootprint(s, composition, k, x)
      ensures Same(s, view, x)
    {
      assert Held(view, stores, x);
      var i :| 0 <= i < |stores| && Same(view, stores[i], x);
      assert Same(s, stores[i], x);
    }
  }

  lemma {:induction false} MixedKeyed(view: Store, stores: seq<Store>)
    requires Mixed(view, stores)
    requires forall i {:trigger stores[i]} :: 0 <= i < |stores| ==> WellKeyed(stores[i])
    ensures WellKeyed(view)
  {
    forall k | k in view
      ensures view[k].key == k
    {
      assert Held(view, stores, k);
      var i :| 0 <= i < |stores| && Same(view, stores[i], k);
    }
  }

  /** Whatever has k in its footprint, other than k itself, is enqueued by an event about k. */
  lemma {:induction false} FootprintRequested(s: Store, composition: bool, x: Key, k: Key)
    requires InFootprint(s, composition, x, k) && x != k
    ensures x in Requests(s, composition, k)
  {
    hide Targets;
    if composition {
      var n: nat :| Walk(Adjacency(s), x, k, n);
      assert n > 0;
      assert x in s;
      assert Requested(s, composition, k, x);
    } else {
      assert Requested(s, composition, k, x);
    }
  }

  lemma {:induction false} UntouchedAgrees(a: Store, b: Store, composition: bool, x: Key, k: Key)
    requires forall y {:trigger Same(b, a, y)} :: y != x ==> Same(b, a, y)
    requires !InFootprint(b, composition, k, x)
    ensures AgreeOn(b, a, composition, k)
  {
    hide InFootprint;
    forall y | InFootprint(b, composition, k, y)
      ensures Same(b, a, y)
    {
      assert y != x;
    }
  }

  lemma {:induction false} AgreeReflexive(s: Store, composition: bool, k: Key)
    ensures AgreeOn(s, s, composition, k)
  {
    hide InFootprint;
  }

  // ---------------------------------------------------------------- quiet runs

  lemma {:induction false} QuietVisit(r: Reader, g: Walked, p: Product, depth: nat)
    requires Quiet(r)
    ensures Visit(r, g, p, depth).1 != DependencyUnavailable
    decreases Remaining(depth), 1, 0
  {
    hide VisitInputs;
    if depth < MAX_DEPTH {
      var open := g.(clock := g.clock + 1, edges := g.edges + |p.inputs|, visiting := g.visiting + {p.key});
      QuietInputs(r, open, p, depth, 0);
    }
  }

  lemma {:induction false} QuietInputs(r: Reader, g: Walked, p: Product, depth: nat, i: nat)
    requires Quiet(r) && depth < MAX_DEPTH && i <= |p.inputs|
    ensures VisitInputs(r, g, p, depth, i).1 != DependencyUnavailable
    decreases Remaining(depth), 0, |p.inputs| - i
  {
    hide Visit, ProducerReady;
    if i < |p.inputs| {
      var key := Target(p.key, p.inputs[i]);
      var (found, reason) := Fetch(r, g, key);
      if reason == NoReason {
        QuietVisit(r, found, found.products[key], depth + 1);
      }
      var (next, stop) := VisitInput(r, g, p, depth, p.inputs[i]);
      if stop == NoReason {
        QuietInputs(r, next, p, depth, i + 1);
      }
    }
  }

  lemma {:induction false} QuietDirect(s: Store, p: Product, i: nat)
    requires i <= |p.inputs|
    ensures FirstDirectIssue(Quieted(s), p, i) != DependencyUnavailable
    decreases |p.inputs| - i
  {
    if i < |p.inputs| {
      QuietDirect(s, p, i + 1);
    }
  }

  /** Without read failures a run neither fails nor hides a failure. */
  lemma {:induction false} QuietRun(s: Store, c: Settings, l: LocalState, p: Product)
    ensures !Run(Quieted(s), c, l, p).failed && !Run(Quieted(s), c, l, p).hidden
  {
    QuietVisit(Quieted(s), Start(p), p, 0);
    QuietDirect(s, p, 0);
    QuietCompose(Quieted(s), c, p);
    hide Compose, FirstDirectIssue;
  }

  lemma {:induction false} FirstUnreadyReason(inputs: seq<InputStatus>)
    requires forall x :: x in inputs ==> x.reason != DependencyUnavailable
    ensures FirstUnready(inputs) != DependencyUnavailable
    decreases |inputs|
  {
    if inputs != [] {
      assert inputs[0] in inputs;
      FirstUnreadyReason(inputs[1..]);
    }
  }

  lemma {:induction false} SortKeeps(a: seq<InputStatus>, x: InputStatus)
    requires x in Order.Sort(a, InputName)
    ensures x in a
  {
    assert x in multiset(Order.Sort(a, InputName));
    assert x in multiset(a);
  }

  lemma {:induction false} RecordedReasons(g: Walked, p: Product)
    ensures forall x :: x in Order.Sort(RecordedInputs(g, p), InputName) ==> x.reason != DependencyUnavailable
  {
    hide Order.Sort, InputName, ProducerReady, FindOutput;
    var recorded := RecordedInputs(g, p);
    forall x | x in Order.Sort(recorded, InputName)
      ensures x.reason != DependencyUnavailable
    {
      SortKeeps(recorded, x);
    }
  }

  lemma {:induction false} QuietCompose(r: Reader, c: Settings, p: Product)
    requires Visit(r, Start(p), p, 0).1 != DependencyUnavailable
    ensures var composed := Compose(r, c, p);
            !composed.failed && !composed.hidden &&
            (composed.condition.Some? ==> composed.condition.value.reason != DependencyUnavailable)
  {
    hide RecordedInputs, Bytes, Visit, Order.Sort, FirstUnready, InputName;
    if p.inputs != [] && c.composition {
      var (g, stop) := CompositionTheorems.Check(r, p);
      RecordedReasons(g, p);
      FirstUnreadyReason(Order.Sort(RecordedInputs(g, p), InputName));
    }
  }

  /** A status that is current stays current when nothing in its footprint changes. */
  lemma {:induction false} UpToDateFrame(s: Store, t: Store, local: map<Key, LocalState>, c: Settings, k: Key)
    requires WellKeyed(s) && k in s && k in t && AgreeOn(s, t, c.composition, k) && s[k] == t[k]
    requires UpToDate(s, local, c, k)
    ensures UpToDate(t, local, c, k)
  {
    QuietRun(s, c, LocalOf(local, k), s[k]);
    RunFrame(Quieted(s), t, c, LocalOf(local, k), s[k]);
  }

  lemma {:induction false} RequestedHasInputs(s: Store, composition: bool, k: Key, x: Key)
    requires x in Requests(s, composition, k)
    ensures x in s && s[x].inputs != []
  {
    if composition {
      var n: nat :| n > 0 && Walk(Adjacency(s), x, k, n);
      assert Succ(Adjacency(s), x) != {};
    }
  }

  // ---------------------------------------------------------------- preservation

  /** An event keeps the invariant at every key but its own, which it queues. */
  lemma {:induction false} NotifyKeeps(sys: System, c: Settings, k: Key, s: Store, listed: bool, x: Key)
    requires WellKeyed(sys.store) && WellKeyed(s)
    requires x != k || k in sys.running ==> InvAt(sys, c, x)
    requires forall y {:trigger Same(s, sys.store, y)} :: y != k ==> Same(s, sys.store, y)
    ensures InvAt(Notify(sys, c, k, s, listed), c, x)
  {
    var next := Notify(sys, c, k, s, listed);
    if x !in next.queue {
      assert x != k && Same(s, sys.store, x);
      if x in Requests(s, c.composition, k) {
        RequestedHasInputs(s, c.composition, k, x);
        MissedKeeps(sys, next, c, k, s, x);
      } else {
        if InFootprint(s, c.composition, x, k) {
          FootprintRequested(s, c.composition, x, k);
        }
        UntouchedAgrees(sys.store, s, c.composition, k, x);
        AgreeSymmetric(s, sys.store, c.composition, x);
        hide AgreeOn, InFootprint, Same, Requests, UpToDate, WellKeyed;
        UntouchedKeeps(sys, next, c, x, s);
      }
    } else if x in sys.running {
      RunningQueued(sys, next, c, x, s);
    }
  }

  /** A consumer that listing failed to find: its own object is as it was. */
  lemma {:induction false} MissedKeeps(sys: System, next: System, c: Settings, k: Key, s: Store, x: Key)
    requires InvAt(sys, c, x) && x !in next.queue && x != k && next == Notify(sys, c, k, s, false)
    requires WellKeyed(s) && Same(s, sys.store, x) && x in Requests(s, c.composition, k) && s[x].inputs != []
    ensures InvAt(next, c, x)
  {
    hide AgreeOn, UpToDate, WellKeyed, Requests;
    if x in sys.running {
      var stores := sys.running[x].stores;
      assert next.running[x].stores == stores + [s];
      forall i | 0 <= i < |stores + [s]|
        ensures WellKeyed((stores + [s])[i]) && Same(s, (stores + [s])[i], x)
      {
        if i < |stores| {
          assert (stores + [s])[i] == stores[i];
        }
      }
    }
  }

  lemma {:induction false} UntouchedKeeps(sys: System, next: System, c: Settings, x: Key, s: Store)
    requires InvAt(sys, c, x) && WellKeyed(sys.store) && WellKeyed(s) && AgreeOn(sys.store, s, c.composition, x)
    requires Same(s, sys.store, x) && next.store == s && next.local == sys.local
    requires x !in sys.queue && x !in next.queue && next.running == Remember(sys.running, s)
    requires x in next.missed <==> x in sys.missed
    requires next.drifted == sys.drifted && next.timers == sys.timers
    ensures InvAt(next, c, x)
  {
    hide AgreeOn, UpToDate, WellKeyed;
    if x in sys.running {
      RunningKept(sys, next, c, x, s);
    } else if x in s && x !in sys.drifted && x !in sys.missed {
      UpToDateFrame(sys.store, s, sys.local, c, x);
    }
  }

  lemma {:induction false} RunningKept(sys: System, next: System, c: Settings, x: Key, s: Store)
    requires x in sys.running && Current(sys, c, x) && x !in sys.queue && x !in next.queue
    requires WellKeyed(s) && AgreeOn(sys.store, s, c.composition, x) && Same(s, sys.store, x)
    requires next.store == s && next.running == Remember(sys.running, s)
    requires x in next.missed <==> x in sys.missed
    requires next.drifted == sys.drifted && next.local == sys.local
    ensures Current(next, c, x)
  {
    var stores := sys.running[x].stores;
    assert next.running[x].stores == stores + [s];
    hide AgreeOn, InFootprint, WellKeyed;
    forall i | 0 <= i < |stores + [s]|
      ensures WellKeyed((stores + [s])[i]) && Same(s, (stores + [s])[i], x)
      ensures x !in sys.missed ==> AgreeOn(s, (stores + [s])[i], c.composition, x)
    {
      if i < |stores| {
        assert (stores + [s])[i] == stores[i];
        if x !in sys.missed {
          AgreeTransitive(sys.store, s, stores[i], c.composition, x);
        }
      } else {
        AgreeReflexive(s, c.composition, x);
      }
    }
  }

  lemma {:induction false} RunningQueued(sys: System, next: System, c: Settings, x: Key, s: Store)
    requires x in sys.running && Current(sys, c, x) && x in next.queue && WellKeyed(s)
    requires next.running == Remember(sys.running, s)
    ensures Current(next, c, x)
  {
    var stores := sys.running[x].stores;
    assert next.running[x].stores == stores + [s];
    hide AgreeOn, WellKeyed;
    forall i | 0 <= i < |stores + [s]|
      ensures WellKeyed((stores + [s])[i])
    {
      if i < |stores| {
        assert (stores + [s])[i] == stores[i];
      }
    }
  }

  lemma {:induction false} EventKeeps(sys: System, next: System, c: Settings, k: Key, s: Store, listed: bool)
    requires Inv(sys, c) && WellKeyed(s) && next == Notify(sys, c, k, s, listed)
    requires forall y {:trigger Same(s, sys.store, y)} :: y != k ==> Same(s, sys.store, y)
    ensures Inv(next, c)
  {
    hide InvAt, Notify, WellKeyed;
    assert next.store == s by { NotifyStore(sys, c, k, s, listed); }
    forall x
      ensures InvAt(next, c, x)
    {
      assert InvAt(sys, c, x) && InvAt(sys, c, k);
      NotifyKeeps(sys, c, k, s, listed, x);
    }
  }

  lemma {:induction false} NotifyStore(sys: System, c: Settings, k: Key, s: Store, listed: bool)
    ensures Notify(sys, c, k, s, listed).store == s
  {
  }

  lemma {:induction false} DriftKeeps(sys: System, next: System, c: Settings, k: Key, l: LocalState)
    requires Inv(sys, c) && Drift(sys, next, k, l)
    ensures Inv(next, c)
  {
    forall x
      ensures InvAt(next, c, x)
    {
      assert InvAt(sys, c, x);
      DriftKeepsAt(sys, next, c, k, l, x);
    }
  }

  lemma {:induction false} DriftKeepsAt(sys: System, next: System, c: Settings, k: Key, l: LocalState, x: Key)
    requires InvAt(sys, c, x) && Drift(sys, next, k, l)
    ensures InvAt(next, c, x)
  {
    if x != k {
      hide Run, AgreeOn, WellKeyed;
      assert LocalOf(next.local, x) == LocalOf(sys.local, x);
    } else if k in sys.store && !DeclaresAny(sys.store[k]) {
      LocalIrrelevant(Quieted(sys.store), c, LocalOf(sys.local, k), l, sys.store[k]);
      hide Run, AgreeOn, WellKeyed;
    } else {
      hide UpToDate, AgreeOn, WellKeyed;
    }
  }

  /** A product that declares no local capability gets the same status from every local state. */
  lemma {:induction false} LocalIrrelevant(r: Reader, c: Settings, l: LocalState, m: LocalState, p: Product)
    requires !DeclaresAny(p)
    ensures Run(r, c, l, p) == Run(r, c, m, p)
  {
    hide Compose, FirstDirectIssue;
  }

  lemma {:induction false} FireKeeps(sys: System, next: System, c: Settings, k: Key)
    requires Inv(sys, c) && Fire(sys, next, k)
    ensures Inv(next, c)
  {
    hide Run, AgreeOn, WellKeyed, UpToDate;
    forall x
      ensures InvAt(next, c, x)
    {
      assert InvAt(sys, c, x);
      UpToDateCopied(sys, next, c, x);
    }
  }

  lemma {:induction false} UpToDateCopied(sys: System, next: System, c: Settings, x: Key)
    requires next.store == sys.store && next.local == sys.local
    ensures x in sys.store ==> UpToDate(next.store, next.local, c, x) == UpToDate(sys.store, sys.local, c, x)
  {
  }

  lemma {:induction false} BeginKeeps(sys: System, next: System, c: Settings, k: Key)
    requires Inv(sys, c) && Begin(sys, next, k)
    ensures Inv(next, c)
  {
    AgreeReflexive(sys.store, c.composition, k);
    hide Run, AgreeOn, UpToDate;
    forall x
      ensures InvAt(next, c, x)
    {
      assert InvAt(sys, c, x);
      UpToDateCopied(sys, next, c, x);
      if x == k {
        assert next.running[k].stores == [sys.store] && next.running[k].locals == [LocalOf(sys.local, k)];
      } else {
        hide WellKeyed;
      }
    }
  }

  /** Nothing changes at x when a system differs elsewhere only. */
  lemma {:induction false} ElsewhereKeeps(a: System, b: System, c: Settings, k: Key, x: Key)
    requires InvAt(a, c, x) && x != k
    requires b.store == a.store && b.local == a.local
    requires x in b.running <==> x in a.running
    requires x in a.running ==> a.running[x] == b.running[x]
    requires x in b.queue <==> x in a.queue
    requires x in b.timers <==> x in a.timers
    requires x in b.drifted <==> x in a.drifted
    requires x in b.missed <==> x in a.missed
    ensures InvAt(b, c, x)
  {
    hide Run, AgreeOn, WellKeyed;
  }

  /** The end of a run for k keeps the invariant at every other key. */
  lemma {:induction false} CommitElsewhere(sys: System, next: System, c: Settings, k: Key, r: Reader, l: LocalState,
                                           listed: bool, x: Key)
    requires WellKeyed(sys.store) && InvAt(sys, c, x) && x != k && Commit(sys, next, c, k, r, l, listed)
    requires WellKeyed(r.store)
    ensures InvAt(next, c, x)
  {
    hide *;
    CommitEnds(sys, next, c, k, r, l, listed);
    IdleElsewhere(sys, c, k, x);
    if !Writes(sys, c, k, r, l) {
      ElsewhereKeeps(sys, next, c, k, x);
    } else {
      var s := Written(sys, c, k, r, l);
      WrittenIs(sys, c, k, r, l);
      var idle := sys.(running := sys.running - {k});
      ElsewhereKeeps(sys, idle, c, k, x);
      WriteElsewhere(idle, Notify(idle, c, k, s, listed), next, c, k, s, listed, x);
    }
  }

  /** The run finds a status to write, and its own object unchanged. */
  ghost predicate Writes(sys: System, c: Settings, k: Key, r: Reader, l: LocalState)
  {
    && k !in r.failing && k in r.store && Same(r.store, sys.store, k)
    && Run(r, c, l, r.store[k]).status != r.store[k].status
  }

  ghost function Written(sys: System, c: Settings, k: Key, r: Reader, l: LocalState): Store
    requires Writes(sys, c, k, r, l)
  {
    sys.store[k := sys.store[k].(status := Run(r, c, l, r.store[k]).status)]
  }

  lemma {:induction false} WrittenIs(sys: System, c: Settings, k: Key, r: Reader, l: LocalState)
    requires Writes(sys, c, k, r, l)
    ensures k in sys.store && exists status ::
              Written(sys, c, k, r, l) == sys.store[k := sys.store[k].(status := status)]
  {
    hide Run;
  }

  lemma {:induction false} IdleElsewhere(sys: System, c: Settings, k: Key, x: Key)
    requires x != k
    ensures var running := sys.running - {k};
            (x in running <==> x in sys.running) && (x in running ==> running[x] == sys.running[x])
  {
  }

  /** How a run for k ends: writing, or touching nothing but k itself. */
  lemma {:induction false} CommitEnds(sys: System, next: System, c: Settings, k: Key, r: Reader, l: LocalState,
                                      listed: bool)
    requires Commit(sys, next, c, k, r, l, listed)
    ensures var idle := sys.(running := sys.running - {k});
            var wrote := if Writes(sys, c, k, r, l) then Notify(idle, c, k, Written(sys, c, k, r, l), listed) else idle;
            && next.store == wrote.store && next.local == wrote.local && next.running == wrote.running
            && wrote.queue <= next.queue <= wrote.queue + {k} && wrote.timers <= next.timers <= wrote.timers + {k}
            && wrote.drifted <= next.drifted <= wrote.drifted + {k} && next.missed == wrote.missed
  {
    hide Run, Mixed, Notify;
  }

  lemma {:induction false} WriteElsewhere(idle: System, wrote: System, next: System, c: Settings, k: Key, s: Store,
                                          listed: bool, x: Key)
    requires WellKeyed(idle.store) && k in idle.store && InvAt(idle, c, x) && x != k &&
             wrote == Notify(idle, c, k, s, listed)
    requires exists status :: s == idle.store[k := idle.store[k].(status := status)]
    requires next.store == wrote.store && next.local == wrote.local && next.running == wrote.running
    requires wrote.queue <= next.queue <= wrote.queue + {k} && wrote.timers <= next.timers <= wrote.timers + {k}
    requires wrote.drifted <= next.drifted <= wrote.drifted + {k} && next.missed == wrote.missed
    ensures InvAt(next, c, x)
  {
    hide InvAt, Notify;
    NotifyKeeps(idle, c, k, s, listed, x);
    ElsewhereKeeps(wrote, next, c, k, x);
  }

  /** The end of a run for k settles k, or leaves it queued. */
  lemma {:induction false} CommitHere(sys: System, next: System, c: Settings, k: Key, r: Reader, l: LocalState,
                                      listed: bool)
    requires WellKeyed(sys.store) && InvAt(sys, c, k) && Commit(sys, next, c, k, r, l, listed)
    ensures InvAt(next, c, k)
  {
    hide Run, UpToDate, AgreeOn, Requests;
    if k !in next.queue {
      assert k !in sys.queue;
      var stores := sys.running[k].stores;
      MixedKeyed(r.store, stores);
      MixedSame(sys.store, r.store, stores, k);
      if k in r.store {
        assert next.store == sys.store && next.local == sys.local && next.missed == sys.missed;
        if k !in sys.missed {
          MixedAgrees(sys.store, r.store, stores, c.composition, k);
          forall v | v in r.direct
            ensures AgreeOn(sys.store, v.store, c.composition, k)
          {
            MixedAgrees(sys.store, v.store, stores, c.composition, k);
          }
        }
        CommitSettles(sys, next, c, k, r, l);
      }
    }
  }

  /** Views mixed from stores that all hold the same product under k hold it too. */
  lemma {:induction false} MixedSame(s: Store, view: Store, stores: seq<Store>, k: Key)
    requires Mixed(view, stores)
    requires forall i {:trigger stores[i]} :: 0 <= i < |stores| ==> Same(s, stores[i], k)
    ensures Same(s, view, k)
  {
    assert Held(view, stores, k);
    var i :| 0 <= i < |stores| && Same(view, stores[i], k);
    assert Same(s, stores[i], k);
  }

  lemma {:induction false} CommitSettles(sys: System, next: System, c: Settings, k: Key, r: Reader, l: LocalState)
    requires k in sys.running && Current(sys, c, k) && k !in sys.queue && k !in next.queue
    requires k in sys.store && k in r.store && r.store[k] == sys.store[k] && k !in r.failing
    requires WellKeyed(sys.store) && WellKeyed(r.store)
    requires k !in sys.missed ==>
               AgreeOn(sys.store, r.store, c.composition, k)
               && forall v :: v in r.direct ==> AgreeOn(sys.store, v.store, c.composition, k)
    requires l in sys.running[k].locals && next.store == sys.store && next.local == sys.local &&
             next.missed == sys.missed
    requires var out := Run(r, c, l, r.store[k]);
             && out.status == r.store[k].status && !out.failed
             && next.timers == (if out.later then sys.timers + {k} else sys.timers)
             && next.drifted == (if out.hidden then sys.drifted + {k} else sys.drifted)
    ensures Rests(next, c, k)
  {
    var p := sys.store[k];
    assert p.key == k;
    LaterWhenRenewed(r, c, l, p);
    RunIsCurrent(r, c, l, p, p);
    hide AgreeOn, Aggregate, ProducerReady;
    if k !in next.drifted && k !in sys.missed {
      ViewsAreAgreed(r, sys.store, c.composition, k);
      RunFrame(r, sys.store, c, l, p);
      if DeclaresAny(p) {
        assert l == LocalOf(sys.local, k);
      } else {
        LocalIrrelevant(Quieted(sys.store), c, l, LocalOf(sys.local, k), p);
      }
      hide Run, ViewsAgree;
    } else {
      hide Run;
    }
  }

  lemma {:induction false} ViewsAreAgreed(r: Reader, s: Store, composition: bool, k: Key)
    requires AgreeOn(s, r.store, composition, k) && forall v :: v in r.direct ==> AgreeOn(s, v.store, composition, k)
    ensures ViewsAgree(r, s, composition, k)
  {
    hide AgreeOn;
    AgreeSymmetric(s, r.store, composition, k);
    forall v | v in r.direct
      ensures AgreeOn(v.store, s, composition, k)
    {
      AgreeSymmetric(s, v.store, composition, k);
    }
  }

  lemma {:induction false} LaterWhenRenewed(r: Reader, c: Settings, l: LocalState, p: Product)
    ensures Renews(c, p) || Run(r, c, l, p).hidden ==> Run(r, c, l, p).later
  {
    hide CompositionTheorems.Check, FirstDirectIssue;
  }

  lemma {:induction false} CommitKeeps(sys: System, next: System, c: Settings, k: Key, r: Reader, l: LocalState,
                                       listed: bool)
    requires Inv(sys, c) && Commit(sys, next, c, k, r, l, listed)
    ensures Inv(next, c)
  {
    assert InvAt(sys, c, k);
    MixedKeyed(r.store, sys.running[k].stores);
    forall x
      ensures InvAt(next, c, x)
    {
      hide Commit, WellKeyed;
      assert InvAt(sys, c, x);
      if x == k {
        CommitHere(sys, next, c, k, r, l, listed);
      } else {
        CommitElsewhere(sys, next, c, k, r, l, listed, x);
      }
    }
    CommitKeyed(sys, next, c, k, r, l, listed);
  }

  lemma {:induction false} CommitKeyed(sys: System, next: System, c: Settings, k: Key, r: Reader, l: LocalState,
                                       listed: bool)
    requires WellKeyed(sys.store) && WellKeyed(r.store) && Commit(sys, next, c, k, r, l, listed)
    ensures WellKeyed(next.store)
  {
    hide Run, Mixed, Requests;
  }

  // ---------------------------------------------------------------- runs of the system

  lemma {:induction false} NextKeeps(sys: System, next: System, c: Settings, step: Step)
    requires Inv(sys, c) && Next(sys, next, c, step)
    ensures Inv(next, c)
  {
    hide Inv, Commit, Drift, Fire, Begin, Notify, WellKeyed, Same;
    match step
    case PutStep(p, listed) => PutKeyed(sys, c, p); EventKeeps(sys, next, c, p.key, sys.store[p.key := p], listed);
    case DeleteStep(k, listed) => DeleteKeyed(sys, c, k); EventKeeps(sys, next, c, k, sys.store - {k}, listed);
    case DriftStep(k, l) => DriftKeeps(sys, next, c, k, l);
    case FireStep(k) => FireKeeps(sys, next, c, k);
    case BeginStep(k) => BeginKeeps(sys, next, c, k);
    case CommitStep(k, r, l, listed) => CommitKeeps(sys, next, c, k, r, l, listed);
    case PauseStep =>
  }

  lemma {:induction false} PutKeyed(sys: System, c: Settings, p: Product)
    requires Inv(sys, c)
    ensures WellKeyed(sys.store[p.key := p])
    ensures forall y {:trigger Same(sys.store[p.key := p], sys.store, y)} ::
              y != p.key ==> Same(sys.store[p.key := p], sys.store, y)
  {
    hide InvAt;
  }

  lemma {:induction false} DeleteKeyed(sys: System, c: Settings, k: Key)
    requires Inv(sys, c)
    ensures WellKeyed(sys.store - {k})
    ensures forall y {:trigger Same(sys.store - {k}, sys.store, y)} :: y != k ==> Same(sys.store - {k}, sys.store, y)
  {
    hide InvAt;
  }

  lemma {:induction false} InitHolds(sys: System, c: Settings)
    requires Init(sys)
    ensures Inv(sys, c)
  {
    hide UpToDate;
    forall k
      ensures InvAt(sys, c, k)
    {
    }
  }

  /** A run of the system from a start state. */
  ghost predicate Behaviour(states: seq<System>, steps: seq<Step>, c: Settings)
  {
    && |states| == |steps| + 1
    && Init(states[0])
    && (forall i {:trigger steps[i]} :: 0 <= i < |steps| ==> Next(states[i], states[i + 1], c, steps[i]))
  }

  lemma {:induction false} InvAlways(states: seq<System>, steps: seq<Step>, c: Settings, i: nat)
    requires Behaviour(states, steps, c) && i < |states|
    ensures Inv(states[i], c)
    decreases i
  {
    if i == 0 {
      InitHolds(states[0], c);
    } else {
      InvAlways(states, steps, c, i - 1);
      hide Inv, Next;
      assert Next(states[i - 1], states[i - 1 + 1], c, steps[i - 1]);
      NextKeeps(states[i - 1], states[i], c, steps[i - 1]);
    }
  }

  /**
   No wakeup is lost: at every point of every run, a product that is neither queued nor being processed, whose own
   local observation has not moved since, and that no failed listing has passed over, has exactly the status a run
   would compute now. Where the observation has moved a timed retry is pending, and with composition enabled one is
   pending wherever a listing failed.
   */
  lemma {:induction false} NoLostWakeups(states: seq<System>, steps: seq<Step>, c: Settings, i: nat, k: Key)
    requires Behaviour(states, steps, c) && i < |states|
    requires k in states[i].store && Idle(states[i], k)
    ensures k !in states[i].drifted && k !in states[i].missed ==>
              states[i].store[k].status ==
              Run(Quieted(states[i].store), c, LocalOf(states[i].local, k), states[i].store[k]).status
    ensures k in states[i].drifted ==> k in states[i].timers
    ensures k in states[i].missed && c.composition ==> k in states[i].timers
  {
    InvAlways(states, steps, c, i);
    hide Run;
    assert InvAt(states[i], c, k);
  }

  /**
   What is recorded belongs to the present declaration: at every point of every run, the status of an idle product
   and each of its conditions carry its generation, even where the observation has moved or a listing failed. So
   consumers read the readiness of an idle product exactly as a run would find it now, unless one of these happened.
   */
  lemma {:induction false} IdleIsStamped(states: seq<System>, steps: seq<Step>, c: Settings, i: nat, k: Key)
    requires Behaviour(states, steps, c) && i < |states|
    requires k in states[i].store && Idle(states[i], k)
    ensures Stamped(states[i].store[k])
    ensures k !in states[i].drifted && k !in states[i].missed ==>
              var s, p, l := states[i].store, states[i].store[k], LocalOf(states[i].local, k);
              (ProducerReady(p) <==> !p.deleting && Aggregate(Quieted(s), p, l, Compose(Quieted(s), c, p)) == NoReason)
  {
    InvAlways(states, steps, c, i);
    assert InvAt(states[i], c, k);
    var s, p := states[i].store, states[i].store[k];
    hide Behaviour, Inv, InvAt, Run, Aggregate, Compose, ProducerReady, Stamped;
    if k !in states[i].drifted && k !in states[i].missed {
      RunIsCurrent(Quieted(s), c, LocalOf(states[i].local, k), p, p);
    }
  }
}
