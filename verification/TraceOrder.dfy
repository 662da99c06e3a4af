/** Kahn's algorithm over a trace's resolved edges, with the set of path lengths kept as 64 bits per product. */
module TraceOrder {
  import opened Products
  import opened Digraph
  import opened Lineage
  import opened TraceSpec
  import opened TraceCheck
  import opened Bits

  /** The products processed so far. */
  ghost function Done(pending: seq<Key>, index: nat): set<Key>
    requires index <= |pending|
  {
    set i | 0 <= i < index :: pending[i]
  }

  /** The queue holds exactly the products without unfinished predecessors, each once, predecessors first. */
  ghost predicate Ordered(t: Trace, observed: set<Key>, pending: seq<Key>, incoming: map<Key, nat>)
  {
    && incoming.Keys == observed
    && (forall i, j :: 0 <= i < j < |pending| ==> pending[i] != pending[j])
    && (forall k {:trigger k in pending} {:trigger incoming[k]} :: k in observed ==>
        (k in pending <==> incoming[k] == 0))
    && (forall k {:trigger k in pending} :: k in pending ==> k in observed)
  }

  /** Every predecessor of a queued product comes before it. */
  ghost predicate PredecessorsFirst(edges: seq<Edge>, pending: seq<Key>)
  {
    forall j, from {:trigger ResolvedLink(edges, from, pending[j])} ::
      0 <= j < |pending| && ResolvedLink(edges, from, pending[j]) ==> from in pending[..j]
  }

  /** Bit b of a product's depths: it is the root itself, or follows a processed product that has bit b - 1. */
  ghost predicate DepthBit(edges: seq<Edge>, root: Key, done: set<Key>, k: Key, b: nat)
  {
    if b == 0 then k == root
    else exists from :: from in done && ResolvedLink(edges, from, k) && Walk(ResolvedGraph(edges), root, from, b - 1)
  }

  ghost predicate DepthBits(edges: seq<Edge>, root: Key, observed: set<Key>, done: set<Key>, depths: map<Key, nat>)
  {
    && depths.Keys == observed
    && forall k, b: nat {:trigger Bit(depths[k], b)} :: k in observed ==>
         (Bit(depths[k], b) <==> b < 64 && DepthBit(edges, root, done, k, b))
  }

  /** The bits of a product whose predecessors are all processed are its exact path lengths. */
  lemma {:induction false} BitsExact(edges: seq<Edge>, root: Key, done: set<Key>, k: Key, b: nat)
    requires forall from {:trigger ResolvedLink(edges, from, k)} :: ResolvedLink(edges, from, k) ==> from in done
    ensures DepthBit(edges, root, done, k, b) <==> Walk(ResolvedGraph(edges), root, k, b)
  {
    hide ResolvedLink, ResolvedGraph;
    var g := ResolvedGraph(edges);
    if b > 0 {
      hide Walk;
      if DepthBit(edges, root, done, k, b) {
        var from :| from in done && ResolvedLink(edges, from, k) && Walk(g, root, from, b - 1);
        ResolvedSucc(edges, from, k);
        Extend(g, root, from, k, b - 1);
      }
      if Walk(g, root, k, b) {
        var from := LastEdge(g, root, k, b);
        ResolvedSucc(edges, from, k);
      }
    }
  }

  // ---------------------------------------------------------------- one step

  /** In-degrees and bits while the edges of `from` from position i on are still to be discounted. */
  ghost predicate PartlyCounted(t: Trace, observed: set<Key>, done: set<Key>, rest: seq<Key>, incoming: map<Key, nat>)
  {
    incoming.Keys == observed
    && forall k {:trigger incoming[k]} :: k in observed ==>
       incoming[k] == CountInto(t.edges, k, done) + multiset(rest)[k]
  }

  /** Discounting one edge. */
  lemma {:induction false} DiscountStep(t: Trace, observed: set<Key>, done: set<Key>, rest: seq<Key>,
                                        incoming: map<Key, nat>)
    requires rest != [] && rest[0] in observed && PartlyCounted(t, observed, done, rest, incoming)
    ensures incoming[rest[0]] > 0
    ensures PartlyCounted(t, observed, done, rest[1..], incoming[rest[0] := incoming[rest[0]] - 1])
  {
    assert rest == [rest[0]] + rest[1..];
    assert multiset(rest) == multiset([rest[0]]) + multiset(rest[1..]);
  }

  ghost predicate PartlyDeep(edges: seq<Edge>, root: Key, observed: set<Key>, done: set<Key>, from: Key, seen: seq<Key>,
                             depths: map<Key, nat>)
  {
    && depths.Keys == observed
    && forall k, b: nat {:trigger Bit(depths[k], b)} :: k in observed ==>
         (Bit(depths[k], b) <==>
            b < 64 && (DepthBit(edges, root, done, k, b) ||
                       (b > 0 && k in seen && Walk(ResolvedGraph(edges), root, from, b - 1))))
  }

  /** Joining the shifted path lengths of `from` into one of its targets. */
  lemma {:induction false} DeepenStep(edges: seq<Edge>, root: Key, observed: set<Key>, done: set<Key>, from: Key,
                                      seen: seq<Key>, k: Key,
                   depths: map<Key, nat>)
    requires PartlyDeep(edges, root, observed, done, from, seen, depths) && k in observed && from in observed
    requires forall b: nat :: Bit(depths[from], b) <==> b < 64 && Walk(ResolvedGraph(edges), root, from, b)
    ensures PartlyDeep(edges, root, observed, done, from, seen + [k], depths[k := Advance(depths[k], depths[from])])
  {
    var after := depths[k := Advance(depths[k], depths[from])];
    hide DepthBit, Walk, Bit, Advance;
    forall x, b: nat | x in observed
      ensures Bit(after[x], b) <==>
                b < 64 && (DepthBit(edges, root, done, x, b) ||
                           (b > 0 && x in seen + [k] && Walk(ResolvedGraph(edges), root, from, b - 1)))
    {
      if x == k {
        AdvanceBit(depths[k], depths[from], b);
      }
    }
  }

  /** Once all targets of `from` have been joined, `from` counts as processed. */
  lemma {:induction false} DeepenDone(edges: seq<Edge>, root: Key, observed: set<Key>, done: set<Key>, from: Key,
                                      depths: map<Key, nat>)
    requires PartlyDeep(edges, root, observed, done, from, ResolvedTargets(edges, from), depths)
    ensures DepthBits(edges, root, observed, done + {from}, depths)
  {
    hide Walk, Bit;
    forall k, b: nat | k in observed
      ensures Bit(depths[k], b) <==> b < 64 && DepthBit(edges, root, done + {from}, k, b)
    {
      TargetsAreLinks(edges, from, k);
      DoneGrows(edges, root, done, from, k, b);
    }
  }

  lemma {:induction false} DoneGrows(edges: seq<Edge>, root: Key, done: set<Key>, from: Key, k: Key, b: nat)
    ensures DepthBit(edges, root, done + {from}, k, b) <==>
              DepthBit(edges, root, done, k, b) ||
              (b > 0 && ResolvedLink(edges, from, k) && Walk(ResolvedGraph(edges), root, from, b - 1))
  {
    hide Walk;
    if b > 0 {
      if DepthBit(edges, root, done + {from}, k, b) {
        var x :| x in done + {from} && ResolvedLink(edges, x, k) && Walk(ResolvedGraph(edges), root, x, b - 1);
        assert x == from || x in done;
      }
      if DepthBit(edges, root, done, k, b) {
        var x :| x in done && ResolvedLink(edges, x, k) && Walk(ResolvedGraph(edges), root, x, b - 1);
        assert x in done + {from};
      }
      if ResolvedLink(edges, from, k) && Walk(ResolvedGraph(edges), root, from, b - 1) {
        assert from in done + {from};
      }
    }
  }

  lemma {:induction false} DeepenStart(edges: seq<Edge>, root: Key, observed: set<Key>, done: set<Key>, from: Key,
                                       depths: map<Key, nat>)
    requires DepthBits(edges, root, observed, done, depths)
    ensures PartlyDeep(edges, root, observed, done, from, [], depths)
  {
  }

  /** A queued product's bits are exact by the time it is processed. */
  lemma {:induction false} QueuedExact(edges: seq<Edge>, root: Key, observed: set<Key>, pending: seq<Key>, index: nat,
                                       depths: map<Key, nat>)
    requires index < |pending| && PredecessorsFirst(edges, pending) && pending[index] in observed
    requires DepthBits(edges, root, observed, Done(pending, index), depths)
    ensures forall b: nat :: Bit(depths[pending[index]], b) <==>
              b < 64 && Walk(ResolvedGraph(edges), root, pending[index], b)
  {
    var k := pending[index];
    forall from | ResolvedLink(edges, from, k)
      ensures from in Done(pending, index)
    {
      assert from in pending[..index];
      var i :| 0 <= i < index && pending[..index][i] == from;
      assert pending[i] == from;
    }
    forall b: nat
      ensures Bit(depths[k], b) <==> b < 64 && Walk(ResolvedGraph(edges), root, k, b)
    {
      BitsExact(edges, root, Done(pending, index), k, b);
    }
  }

  /** A product becomes ready when its last unfinished predecessor is the one being processed. */
  lemma {:induction false} ReadyNow(t: Trace, pending: seq<Key>, index: nat, k: Key)
    requires index < |pending|
    requires CountInto(t.edges, k, Done(pending, index) + {pending[index]}) == 0
    requires PredecessorsFirst(t.edges, pending)
    ensures PredecessorsFirst(t.edges, pending + [k])
  {
    var next := pending + [k];
    var done := Done(pending, index) + {pending[index]};
    CountZero(t.edges, k, done);
    forall j, from | 0 <= j < |next| && ResolvedLink(t.edges, from, next[j])
      ensures from in next[..j]
    {
      if j < |pending| {
        assert next[j] == pending[j] && next[..j] == pending[..j];
      } else {
        assert from in done;
        assert next[..j] == pending;
      }
    }
  }

  // ---------------------------------------------------------------- the loop

  /** Everything the loop maintains between two products. */
  ghost predicate Processing(t: Trace, observed: set<Key>, pending: seq<Key>, index: nat, incoming: map<Key, nat>,
                             depths: map<Key, nat>)
  {
    && index <= |pending|
    && Ordered(t, observed, pending, incoming)
    && PredecessorsFirst(t.edges, pending)
    && IncomingTable(t.edges, observed, Done(pending, index), incoming)
    && DepthBits(t.edges, t.root, observed, Done(pending, index), depths)
  }

  /** When the queue has run dry it holds every product exactly if no resolved edges form a cycle. */
  lemma {:induction false} DryMeansAcyclic(t: Trace, observed: set<Key>, pending: seq<Key>, incoming: map<Key, nat>,
                                           depths: map<Key, nat>)
    requires Processing(t, observed, pending, |pending|, incoming, depths)
    requires forall e {:trigger e in t.edges} :: e in t.edges ==> ShapedEdge(observed, e)
    ensures |pending| == |observed| <==> Acyclic(ResolvedGraph(t.edges))
    ensures |pending| == |observed| ==> forall k :: k in observed ==> k in pending
  {
    hide DepthBits;
    PendingCount(observed, pending);
    if |pending| == |observed| {
      FullIsAcyclic(t, observed, pending);
    } else {
      StuckIsCyclic(t, observed, pending, incoming);
    }
  }

  lemma {:induction false} PendingCount(observed: set<Key>, pending: seq<Key>)
    requires forall i, j :: 0 <= i < j < |pending| ==> pending[i] != pending[j]
    requires forall k {:trigger k in pending} :: k in pending ==> k in observed
    ensures |pending| <= |observed|
    ensures |pending| == |observed| <==> forall k :: k in observed ==> k in pending
  {
    DistinctCount(pending);
    var all := set k | k in pending;
    SubsetCount(all, observed);
    if |pending| == |observed| {
      SameSize(all, observed);
      assert forall k :: k in observed ==> k in all;
    }
    if forall k :: k in observed ==> k in pending {
      assert all == observed;
    }
  }

  lemma {:induction false} FullIsAcyclic(t: Trace, observed: set<Key>, pending: seq<Key>)
    requires PredecessorsFirst(t.edges, pending) && forall k :: k in observed ==> k in pending
    requires forall i, j :: 0 <= i < j < |pending| ==> pending[i] != pending[j]
    requires forall e {:trigger e in t.edges} :: e in t.edges ==> ShapedEdge(observed, e)
    ensures Acyclic(ResolvedGraph(t.edges))
  {
    var rank: map<Key, nat> := map i | 0 <= i < |pending| :: pending[i] := |pending| - i;
    forall x, y {:trigger y in Succ(ResolvedGraph(t.edges), x)} | y in Succ(ResolvedGraph(t.edges), x)
      ensures x in rank && y in rank && rank[y] < rank[x]
    {
      ResolvedSucc(t.edges, x, y);
      LinkObserved(t, observed, x, y);
      var j :| 0 <= j < |pending| && pending[j] == y;
      assert x in pending[..j];
      var i :| 0 <= i < j && pending[..j][i] == x;
      assert pending[i] == x;
      assert rank[pending[i]] == |pending| - i && rank[pending[j]] == |pending| - j;
    }
    RankIsAcyclic(ResolvedGraph(t.edges), rank);
  }

  lemma {:induction false} LinkObserved(t: Trace, observed: set<Key>, x: Key, y: Key)
    requires forall e {:trigger e in t.edges} :: e in t.edges ==> ShapedEdge(observed, e)
    requires ResolvedLink(t.edges, x, y)
    ensures x in observed && y in observed
  {
  }

  lemma {:induction false} StuckIsCyclic(t: Trace, observed: set<Key>, pending: seq<Key>, incoming: map<Key, nat>)
    requires Ordered(t, observed, pending, incoming) &&
             IncomingTable(t.edges, observed, Done(pending, |pending|), incoming)
    requires forall e {:trigger e in t.edges} :: e in t.edges ==> ShapedEdge(observed, e)
    requires !forall k :: k in observed ==> k in pending
    ensures !Acyclic(ResolvedGraph(t.edges))
  {
    var stuck := set k | k in observed && k !in pending;
    forall k {:trigger HasPredecessor(ResolvedGraph(t.edges), stuck, k)} | k in stuck
      ensures HasPredecessor(ResolvedGraph(t.edges), stuck, k)
    {
      StuckHasPredecessor(t, observed, pending, incoming, stuck, k);
    }
    var first :| first in observed && first !in pending;
    assert first in stuck;
    NoSourceHasCycle(ResolvedGraph(t.edges), stuck);
  }

  lemma {:induction false} StuckHasPredecessor(t: Trace, observed: set<Key>, pending: seq<Key>, incoming: map<Key, nat>,
                                               stuck: set<Key>, k: Key)
    requires Ordered(t, observed, pending, incoming) &&
             IncomingTable(t.edges, observed, Done(pending, |pending|), incoming)
    requires forall e {:trigger e in t.edges} :: e in t.edges ==> ShapedEdge(observed, e)
    requires stuck == set x | x in observed && x !in pending
    requires k in stuck
    ensures HasPredecessor(ResolvedGraph(t.edges), stuck, k)
  {
    var done := Done(pending, |pending|);
    assert incoming[k] != 0;
    CountZero(t.edges, k, done);
    var from :| ResolvedLink(t.edges, from, k) && from !in done;
    LinkObserved(t, observed, from, k);
    ResolvedSucc(t.edges, from, k);
    assert from in stuck;
  }

  /** The state of the inner loop: some edges of the product at hand are discounted and joined, the rest are not. */
  ghost predicate InProcess(t: Trace, observed: set<Key>, pending: seq<Key>, index: nat, rest: seq<Key>, seen: seq<Key>,
                            pending': seq<Key>, incoming': map<Key, nat>, depths': map<Key, nat>)
  {
    && index < |pending| <= |pending'| && pending'[..|pending|] == pending
    && pending[index] in observed && pending[index] !in rest
    && Ordered(t, observed, pending', incoming')
    && PredecessorsFirst(t.edges, pending')
    && PartlyCounted(t, observed, Done(pending, index) + {pending[index]}, rest, incoming')
    && PartlyDeep(t.edges, t.root, observed, Done(pending, index), pending[index], seen, depths')
    && (forall b: nat {:trigger Bit(depths'[pending[index]], b)} ::
          Bit(depths'[pending[index]], b) <==> b < 64 && Walk(ResolvedGraph(t.edges), t.root, pending[index], b))
  }

  lemma {:induction false} TargetObserved(t: Trace, observed: set<Key>, from: Key, k: Key)
    requires forall e {:trigger e in t.edges} :: e in t.edges ==> ShapedEdge(observed, e)
    requires k in ResolvedTargets(t.edges, from)
    ensures k in observed
  {
    TargetsAreLinks(t.edges, from, k);
  }

  lemma {:induction false} DonePrefix(pending: seq<Key>, pending': seq<Key>, index: nat)
    requires index <= |pending| <= |pending'| && pending'[..|pending|] == pending
    ensures Done(pending', index) == Done(pending, index)
    ensures index < |pending| ==> Done(pending', index + 1) == Done(pending, index) + {pending[index]}
  {
    assert forall i :: 0 <= i < |pending| ==> pending'[i] == pending'[..|pending|][i] == pending[i];
    if index < |pending| {
      forall k | k in Done(pending', index + 1)
        ensures k in Done(pending, index) + {pending[index]}
      {
        var i :| 0 <= i < index + 1 && pending'[i] == k;
        assert i == index || pending[i] in Done(pending, index);
      }
      forall k | k in Done(pending, index) + {pending[index]}
        ensures k in Done(pending', index + 1)
      {
        if k != pending[index] {
          var i :| 0 <= i < index && pending[i] == k;
          assert pending'[i] in Done(pending', index + 1);
        }
      }
    }
  }

  /** The product at hand is new, and has no edge to itself. */
  lemma {:induction false} AtHand(t: Trace, observed: set<Key>, pending: seq<Key>, index: nat, incoming: map<Key, nat>)
    requires index < |pending| && Ordered(t, observed, pending, incoming)
    requires IncomingTable(t.edges, observed, Done(pending, index), incoming)
    ensures pending[index] in observed && pending[index] !in Done(pending, index)
    ensures pending[index] !in ResolvedTargets(t.edges, pending[index])
  {
    var from := pending[index];
    assert from in pending && from in observed;
    assert incoming[from] == 0;
    CountZero(t.edges, from, Done(pending, index));
    TargetsAreLinks(t.edges, from, from);
  }

  lemma {:induction false} ProcessStart(t: Trace, observed: set<Key>, pending: seq<Key>, index: nat,
                                        incoming: map<Key, nat>, depths: map<Key, nat>)
    requires index < |pending| && Processing(t, observed, pending, index, incoming, depths)
    ensures InProcess(t, observed, pending, index, ResolvedTargets(t.edges, pending[index]), [], pending, incoming,
                      depths)
  {
    var from := pending[index];
    var done := Done(pending, index);
    var targets := ResolvedTargets(t.edges, from);
    AtHand(t, observed, pending, index, incoming);
    hide Ordered, ResolvedTargets, Done, Walk, PredecessorsFirst, Bit;
    assert PartlyCounted(t, observed, done + {from}, targets, incoming) by {
      forall k | k in observed
        ensures incoming[k] == CountInto(t.edges, k, done + {from}) + multiset(targets)[k]
      {
        CountSplits(t.edges, k, done, from);
      }
    }
    hide IncomingTable, PartlyCounted;
    DeepenStart(t.edges, t.root, observed, done, from, depths);
    QueuedExact(t.edges, t.root, observed, pending, index, depths);
  }

  /** What the inner loop may rely on at its next target. */
  lemma {:induction false} ProcessFacts(t: Trace, observed: set<Key>, pending: seq<Key>, index: nat, rest: seq<Key>,
                                        seen: seq<Key>,
                     pending': seq<Key>, incoming': map<Key, nat>, depths': map<Key, nat>)
    requires InProcess(t, observed, pending, index, rest, seen, pending', incoming', depths')
    requires rest != [] && rest[0] in observed
    ensures depths'.Keys == observed && incoming'.Keys == observed && pending[index] in observed
    ensures incoming'[rest[0]] > 0
  {
    hide Ordered, PredecessorsFirst, Walk, Bit, DepthBit, CountInto;
    DiscountStep(t, observed, Done(pending, index) + {pending[index]}, rest, incoming');
  }

  lemma {:induction false} ProcessStep(t: Trace, observed: set<Key>, pending: seq<Key>, index: nat, rest: seq<Key>,
                                       seen: seq<Key>,
                    pending1: seq<Key>, incoming1: map<Key, nat>, depths1: map<Key, nat>,
                    pending2: seq<Key>, incoming2: map<Key, nat>, depths2: map<Key, nat>)
    requires InProcess(t, observed, pending, index, rest, seen, pending1, incoming1, depths1)
    requires rest != [] && rest[0] in observed
    requires depths1.Keys == observed && incoming1.Keys == observed && incoming1[rest[0]] > 0
    requires pending[index] in observed
    requires depths2 == depths1[rest[0] := Advance(depths1[rest[0]], depths1[pending[index]])]
    requires incoming2 == incoming1[rest[0] := incoming1[rest[0]] - 1]
    requires pending2 == if incoming2[rest[0]] == 0 then pending1 + [rest[0]] else pending1
    ensures InProcess(t, observed, pending, index, rest[1..], seen + [rest[0]], pending2, incoming2, depths2)
  {
    var from, done, k := pending[index], Done(pending, index), rest[0];
    hide Walk, Bit, DepthBit, CountInto, Advance, PredecessorsFirst;
    assert from != k;
    assert from !in rest[1..];
    OrderedStep(t, observed, k, pending1, incoming1, pending2, incoming2);
    hide Ordered;
    DiscountStep(t, observed, done + {from}, rest, incoming1);
    DeepenStep(t.edges, t.root, observed, done, from, seen, k, depths1);
    assert depths2[from] == depths1[from];
    hide PartlyDeep;
    if incoming2[k] == 0 {
      CountedOut(t, observed, done + {from}, rest[1..], incoming2, k);
      DonePrefix(pending, pending1, index);
      assert pending1[index] == pending1[..|pending|][index] == from;
      ReadyNow(t, pending1, index, k);
      assert pending2[..|pending|] == pending1[..|pending|];
    }
  }

  lemma {:induction false} CountedOut(t: Trace, observed: set<Key>, done: set<Key>, rest: seq<Key>,
                                      incoming: map<Key, nat>, k: Key)
    requires PartlyCounted(t, observed, done, rest, incoming) && k in observed && incoming[k] == 0
    ensures CountInto(t.edges, k, done) == 0
  {
  }

  /** Lowering one in-degree, and queueing the product when it reaches zero, keeps the queue exact. */
  lemma {:induction false} OrderedStep(t: Trace, observed: set<Key>, k: Key, pending1: seq<Key>,
                                       incoming1: map<Key, nat>,
                    pending2: seq<Key>, incoming2: map<Key, nat>)
    requires Ordered(t, observed, pending1, incoming1) && k in observed && incoming1[k] > 0
    requires incoming2 == incoming1[k := incoming1[k] - 1]
    requires pending2 == if incoming2[k] == 0 then pending1 + [k] else pending1
    ensures Ordered(t, observed, pending2, incoming2)
  {
    assert k !in pending1;
  }

  lemma {:induction false} ProcessDone(t: Trace, observed: set<Key>, pending: seq<Key>, index: nat, targets: seq<Key>,
                    pending': seq<Key>, incoming': map<Key, nat>, depths': map<Key, nat>)
    requires InProcess(t, observed, pending, index, [], targets, pending', incoming', depths')
    requires targets == ResolvedTargets(t.edges, pending[index])
    ensures Processing(t, observed, pending', index + 1, incoming', depths')
  {
    hide Ordered, PredecessorsFirst, Walk, Bit, DepthBit, CountInto, ResolvedTargets;
    DonePrefix(pending, pending', index);
    assert IncomingTable(t.edges, observed, Done(pending', index + 1), incoming') by {
      hide PartlyDeep;
    }
    hide PartlyCounted, IncomingTable;
    DeepenDone(t.edges, t.root, observed, Done(pending, index), pending[index], depths');
  }

  /** Discount and deepen along all resolved edges of one product, queueing those that become ready. */
  method Process(t: Trace, ghost observed: set<Key>, targets: seq<Key>, pending: seq<Key>, index: nat,
                 incoming: map<Key, nat>, depths: map<Key, nat>)
    returns (pending': seq<Key>, incoming': map<Key, nat>, depths': map<Key, nat>)
    requires forall e {:trigger e in t.edges} :: e in t.edges ==> ShapedEdge(observed, e)
    requires index < |pending| && Processing(t, observed, pending, index, incoming, depths)
    requires targets == ResolvedTargets(t.edges, pending[index])
    ensures Processing(t, observed, pending', index + 1, incoming', depths')
  {
    hide *;
    var from := pending[index];
    pending', incoming', depths' := pending, incoming, depths;
    ProcessStart(t, observed, pending, index, incoming, depths);
    var i := 0;
    while i < |targets|
      invariant i <= |targets|
      invariant InProcess(t, observed, pending, index, targets[i..], targets[..i], pending', incoming', depths')
    {
      var k := targets[i];
      ghost var rest, seen := targets[i..], targets[..i];
      assert rest[0] == k && rest[1..] == targets[i + 1..] && seen + [k] == targets[..i + 1];
      TargetObserved(t, observed, from, k);
      ProcessFacts(t, observed, pending, index, rest, seen, pending', incoming', depths');
      ghost var pending1, incoming1, depths1 := pending', incoming', depths';
      depths' := depths'[k := Advance(depths'[k], depths'[from])];
      incoming' := incoming'[k := incoming'[k] - 1];
      if incoming'[k] == 0 {
        pending' := pending' + [k];
      }
      ProcessStep(t, observed, pending, index, rest, seen, pending1, incoming1, depths1, pending', incoming', depths');
      i := i + 1;
    }
    assert targets[i..] == [] && targets[..i] == targets;
    ProcessDone(t, observed, pending, index, targets, pending', incoming', depths');
  }

  /** The products without resolved edges into them, in the order they are listed. */
  method Sources(t: Trace, observed: seq<Key>, incoming: map<Key, nat>) returns (pending: seq<Key>)
    requires forall i, j :: 0 <= i < j < |observed| ==> observed[i] != observed[j]
    requires incoming.Keys == set k | k in observed
    ensures Ordered(t, incoming.Keys, pending, incoming)
  {
    pending := [];
    var i := 0;
    while i < |observed|
      invariant i <= |observed|
      invariant forall i, j :: 0 <= i < j < |pending| ==> pending[i] != pending[j]
      invariant forall k {:trigger k in pending} :: k in pending <==>
                  k in observed[..i] && k in incoming && incoming[k] == 0
    {
      assert observed[..i + 1] == observed[..i] + [observed[i]];
      assert observed[i] !in observed[..i] && observed[i] !in pending;
      if incoming[observed[i]] == 0 {
        pending := pending + [observed[i]];
      }
      i := i + 1;
    }
    assert observed[..i] == observed;
  }

  lemma {:induction false} SourcesFirst(t: Trace, observed: set<Key>, pending: seq<Key>, incoming: map<Key, nat>,
                                        depths: map<Key, nat>)
    requires Ordered(t, observed, pending, incoming) && IncomingTable(t.edges, observed, {}, incoming) &&
             t.root in observed
    requires depths == map k | k in observed :: if k == t.root then 1 else 0
    ensures Processing(t, observed, pending, 0, incoming, depths)
  {
    forall j | 0 <= j < |pending|
      ensures forall from :: !ResolvedLink(t.edges, from, pending[j])
    {
      assert pending[j] in pending;
      CountZero(t.edges, pending[j], {});
    }
    assert Done(pending, 0) == {};
    hide Ordered, IncomingTable, PredecessorsFirst, Walk;
    forall k, b: nat | k in observed
      ensures Bit(depths[k], b) <==> b < 64 && DepthBit(t.edges, t.root, {}, k, b)
    {
      PowBit(0, b);
      ZeroBit(b);
    }
  }

  /**
   Kahn's algorithm decides whether the resolved edges are acyclic; when they are, every product's bits are
   exactly the lengths below 64 of the resolved paths from the root to it.
   */
  method Order(t: Trace, observed: seq<Key>, upstream: map<Key, seq<Key>>, incoming: map<Key, nat>)
    returns (acyclic: bool, depths: map<Key, nat>)
    requires forall i, j :: 0 <= i < j < |observed| ==> observed[i] != observed[j]
    requires incoming.Keys == (set k | k in observed) && t.root in observed
    requires forall e {:trigger e in t.edges} :: e in t.edges ==> ShapedEdge(incoming.Keys, e)
    requires UpstreamTable(t.edges, incoming.Keys, upstream) && IncomingTable(t.edges, incoming.Keys, {}, incoming)
    ensures acyclic <==> Acyclic(ResolvedGraph(t.edges))
    ensures acyclic ==> depths.Keys == incoming.Keys
    ensures acyclic ==> forall k, b: nat {:trigger Bit(depths[k], b)} :: k in incoming ==>
              (Bit(depths[k], b) <==> b < 64 && Walk(ResolvedGraph(t.edges), t.root, k, b))
  {
    hide *;
    ghost var all := incoming.Keys;
    var pending := Sources(t, observed, incoming);
    depths := map k | k in incoming :: if k == t.root then 1 else 0;
    SourcesFirst(t, all, pending, incoming, depths);
    var left := incoming;
    var index := 0;
    ProcessingBounds(t, all, pending, index, left, depths);
    while index < |pending|
      invariant index <= |pending| <= |all| && forall k :: k in pending ==> k in all
      invariant Processing(t, all, pending, index, left, depths)
      decreases |all| - index
    {
      UpstreamAt(t.edges, all, upstream, pending[index]);
      pending, left, depths := Process(t, all, upstream[pending[index]], pending, index, left, depths);
      index := index + 1;
      ProcessingBounds(t, all, pending, index, left, depths);
    }
    DryMeansAcyclic(t, all, pending, left, depths);
    acyclic := |pending| == |incoming|;
    assert |incoming| == |incoming.Keys|;
    if acyclic {
      AllExact(t, all, pending, left, depths);
    }
  }

  lemma {:induction false} UpstreamAt(edges: seq<Edge>, observed: set<Key>, upstream: map<Key, seq<Key>>, k: Key)
    requires UpstreamTable(edges, observed, upstream) && k in observed
    ensures k in upstream && upstream[k] == ResolvedTargets(edges, k)
  {
  }

  lemma {:induction false} ProcessingBounds(t: Trace, observed: set<Key>, pending: seq<Key>, index: nat,
                                            incoming: map<Key, nat>, depths: map<Key, nat>)
    requires Processing(t, observed, pending, index, incoming, depths)
    ensures index <= |pending| <= |observed| && (forall k :: k in pending ==> k in observed) && depths.Keys == observed
  {
    hide PredecessorsFirst, IncomingTable, Bit;
    PendingCount(observed, pending);
  }

  lemma {:induction false} AllExact(t: Trace, observed: set<Key>, pending: seq<Key>, incoming: map<Key, nat>,
                                    depths: map<Key, nat>)
    requires Processing(t, observed, pending, |pending|, incoming, depths)
    requires forall k :: k in observed ==> k in pending
    requires forall e {:trigger e in t.edges} :: e in t.edges ==> ShapedEdge(observed, e)
    ensures depths.Keys == observed
    ensures forall k, b: nat {:trigger Bit(depths[k], b)} :: k in observed ==>
              (Bit(depths[k], b) <==> b < 64 && Walk(ResolvedGraph(t.edges), t.root, k, b))
  {
    hide Ordered, PredecessorsFirst, IncomingTable, Walk, Bit;
    var done := Done(pending, |pending|);
    forall from | from in observed
      ensures from in done
    {
      var i :| 0 <= i < |pending| && pending[i] == from;
    }
    forall k, b: nat | k in observed
      ensures Bit(depths[k], b) <==> b < 64 && Walk(ResolvedGraph(t.edges), t.root, k, b)
    {
      forall from {:trigger ResolvedLink(t.edges, from, k)} | ResolvedLink(t.edges, from, k)
        ensures from in done
      {
        LinkObserved(t, observed, from, k);
      }
      BitsExact(t.edges, t.root, done, k, b);
    }
  }
}
