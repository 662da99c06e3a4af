/** The browser's independent check of a review plan against the descriptors of a complete report. */
module PlanCheck {
  import opened Products
  import opened Digraph
  import opened Bundle
  import opened Plan
  import opened Decimals
  import Features

  const MAX_PRODUCTS := 256
  const MAX_EDGES := 1024
  const MAX_KEY := 317
  const UI_V2 := "data-product-ui/v2"
  const MAX_SOURCES := 32

  /** A published descriptor; ui holds the API version of a declared user-interface contract. */
  datatype Descriptor = Descriptor(ns: string, name: string, id: string, inputs: seq<Input>, outputs: seq<Output>,
                                   ui: Option<string>)

  /** The parts of a complete report the plan is checked against. */
  datatype Complete = Complete(sources: seq<nat>, features: map<Origin, set<string>>, descriptors: seq<Descriptor>)

  type Catalog = map<string, Descriptor>

  function DescriptorKey(d: Descriptor): string
  {
    d.ns + "/" + d.name
  }

  /** The key an input of a descriptor resolves to. */
  function Resolved(d: Descriptor, input: Input): string
  {
    (if input.ref.ns == "" then d.ns else input.ref.ns) + "/" + input.ref.name
  }

  predicate ValidPosition(sources: seq<nat>, o: Origin)
  {
    1 <= o.source <= |sources| && o.source <= MAX_SOURCES && 1 <= o.document <= sources[o.source - 1]
  }

  /** The features a descriptor cannot do without. */
  function RequiredFeatures(d: Descriptor): set<string>
  {
    (if d.inputs != [] then {Features.COMPOSITION} else {})
    + (if d.ui.Some? then {Features.UI_CONTRACT} else {})
    + (if d.ui == Some(UI_V2) then {Features.UI_APPEARANCE} else {})
  }

  // ---------------------------------------------------------------- the meaning of a plan

  ghost predicate Identified(ds: seq<Descriptor>)
  {
    forall i, j :: 0 <= i < j < |ds| ==> DescriptorKey(ds[i]) != DescriptorKey(ds[j]) && ds[i].id != ds[j].id
  }

  /** Descriptors by key; a later one replaces an earlier one. */
  function CatalogOf(ds: seq<Descriptor>): Catalog
  {
    if ds == [] then map[]
    else
      var last := ds[|ds| - 1];
      CatalogOf(ds[..|ds| - 1])[DescriptorKey(last) := last]
  }

  function TotalInputs(ds: seq<Descriptor>): nat
  {
    if ds == [] then 0 else TotalInputs(ds[..|ds| - 1]) + |ds[|ds| - 1].inputs|
  }

  /** A declared input: a consumer and the position of one of its inputs. */
  predicate Slot(c: Catalog, slot: (string, nat))
  {
    slot.0 in c && slot.1 < |c[slot.0].inputs|
  }

  function SlotOf(e: PlanEdge): (string, nat)
  {
    (e.consumer, e.index)
  }

  /** An entry names a product, at the position of a declaration that requires what the product needs. */
  predicate EntryFits(r: Complete, c: Catalog, entry: PlanProduct)
  {
    && Utf8Length(entry.key) <= MAX_KEY && entry.key in c
    && ValidPosition(r.sources, entry.origin) && entry.origin in r.features
    && RequiredFeatures(c[entry.key]) <= r.features[entry.origin]
  }

  /** The order is a permutation of the products, each at a position of its own. */
  ghost predicate OrderFits(r: Complete, c: Catalog, order: seq<PlanProduct>)
  {
    && |order| == |r.descriptors|
    && (forall entry :: entry in order ==> EntryFits(r, c, entry))
    && forall i, j :: 0 <= i < j < |order| ==> order[i].key != order[j].key && order[i].origin != order[j].origin
  }

  /** The edge repeats its declared input, resolved inside the namespace to a product that has the output. */
  predicate Repeats(c: Catalog, e: PlanEdge)
  {
    && Slot(c, SlotOf(e)) && e.producer in c
    && var consumer := c[e.consumer];
       var input := consumer.inputs[e.index];
    && (input.ref.ns == "" || input.ref.ns == consumer.ns) && c[e.producer].ns == consumer.ns
    && Resolved(consumer, input) == e.producer && e.input == input.name && e.output == input.ref.output
    && exists o :: o in c[e.producer].outputs && o.name == e.output
  }

  /** Somewhere in the order the producer stands before the consumer, and the edge carries the consumer's position. */
  ghost predicate InOrder(order: seq<PlanProduct>, e: PlanEdge)
  {
    exists i, j {:trigger order[i], order[j]} :: 0 <= i < j < |order| &&
      order[i].key == e.producer && order[j].key == e.consumer && order[j].origin == e.origin
  }

  ghost predicate EdgesFit(c: Catalog, order: seq<PlanProduct>, edges: seq<PlanEdge>)
  {
    && (forall e :: e in edges ==> Repeats(c, e) && InOrder(order, e))
    && forall i, j :: 0 <= i < j < |edges| ==> SlotOf(edges[i]) != SlotOf(edges[j])
  }

  /**
   A sound plan: the order is a permutation of the products, every edge repeats a declared input whose producer
   stands earlier, and edges and declared inputs are in bijection.
   */
  ghost predicate PlanSound(r: Complete, plan: ReviewPlan)
  {
    var c := CatalogOf(r.descriptors);
    && 0 < |r.descriptors| <= MAX_PRODUCTS && |r.features| == |r.descriptors| && Identified(r.descriptors)
    && OrderFits(r, c, plan.order)
    && (set entry | entry in plan.order :: entry.key) == c.Keys
    && |plan.edges| <= MAX_EDGES && EdgesFit(c, plan.order, plan.edges)
    && forall slot :: Slot(c, slot) ==> exists e :: e in plan.edges && SlotOf(e) == slot
  }

  // ---------------------------------------------------------------- counting

  ghost function Slots(ds: seq<Descriptor>): set<(string, nat)>
  {
    if ds == [] then {}
    else Slots(ds[..|ds| - 1]) + OwnSlots(ds[|ds| - 1])
  }

  ghost function OwnSlots(d: Descriptor): set<(string, nat)>
  {
    set i | 0 <= i < |d.inputs| :: (DescriptorKey(d), i)
  }

  lemma {:induction false} OwnSlotsCount(d: Descriptor)
    ensures |OwnSlots(d)| == |d.inputs|
  {
    var s := seq(|d.inputs|, i requires 0 <= i < |d.inputs| => (DescriptorKey(d), i as nat));
    DistinctCount(s);
    assert forall i :: 0 <= i < |s| ==> s[i] in s;
    forall x | x in OwnSlots(d)
      ensures x in s
    {
      assert s[x.1] == x;
    }
    assert (set x | x in s) == OwnSlots(d);
  }

  lemma {:induction false} CatalogOfOne(ds: seq<Descriptor>, i: nat)
    requires i < |ds| && Identified(ds)
    ensures DescriptorKey(ds[i]) in CatalogOf(ds) && CatalogOf(ds)[DescriptorKey(ds[i])] == ds[i]
    decreases |ds|
  {
    var front := ds[..|ds| - 1];
    if i < |front| {
      CatalogOfOne(front, i);
      assert ds[i] == front[i];
    }
  }

  lemma {:induction false} CatalogSplit(ds: seq<Descriptor>)
    requires ds != []
    ensures var last := ds[|ds| - 1];
            CatalogOf(ds) == CatalogOf(ds[..|ds| - 1])[DescriptorKey(last) := last]
  {
  }

  lemma {:induction false} LastIsNew(ds: seq<Descriptor>)
    requires Identified(ds) && ds != []
    ensures var front, last := ds[..|ds| - 1], ds[|ds| - 1];
            Identified(front) && DescriptorKey(last) !in CatalogOf(front)
            && CatalogOf(ds) == CatalogOf(front)[DescriptorKey(last) := last]
  {
    CatalogSplit(ds);
    hide CatalogOf, DescriptorKey;
    var front, last := ds[..|ds| - 1], ds[|ds| - 1];
    assert forall i :: 0 <= i < |front| ==> front[i] == ds[i] && DescriptorKey(front[i]) != DescriptorKey(last);
    KeyInCatalog(front, DescriptorKey(last));
  }

  /** The catalog holds exactly the keys of the descriptors, each with a descriptor of that key. */
  lemma {:induction false} KeyInCatalog(ds: seq<Descriptor>, k: string)
    ensures k in CatalogOf(ds) <==> exists i :: 0 <= i < |ds| && DescriptorKey(ds[i]) == k
    ensures k in CatalogOf(ds) ==> CatalogOf(ds)[k] in ds && DescriptorKey(CatalogOf(ds)[k]) == k
    decreases |ds|
  {
    hide DescriptorKey;
    if ds != [] {
      var front, last := ds[..|ds| - 1], ds[|ds| - 1];
      KeyInCatalog(front, k);
      CatalogSplit(ds);
      hide CatalogOf;
      if k in CatalogOf(front) {
        var i :| 0 <= i < |front| && DescriptorKey(front[i]) == k;
        assert ds[i] == front[i];
        var j :| 0 <= j < |front| && front[j] == CatalogOf(front)[k];
        assert ds[j] == front[j];
      }
      if i :| 0 <= i < |ds| && DescriptorKey(ds[i]) == k {
        if i < |front| {
          assert front[i] == ds[i];
        }
      }
    }
  }

  lemma {:induction false} SlotListed(ds: seq<Descriptor>, slot: (string, nat))
    requires Identified(ds)
    ensures slot in Slots(ds) <==> Slot(CatalogOf(ds), slot)
    decreases |ds|
  {
    hide Identified, CatalogOf, DescriptorKey;
    if ds == [] {
      EmptyCatalog();
    } else {
      var front, last := ds[..|ds| - 1], ds[|ds| - 1];
      LastIsNew(ds);
      SlotListed(front, slot);
      assert slot in OwnSlots(last) <==> slot.0 == DescriptorKey(last) && slot.1 < |last.inputs|;
    }
  }

  /** With distinct keys, there are as many slots as declared inputs. */
  lemma {:induction false} SlotsCount(ds: seq<Descriptor>)
    requires Identified(ds)
    ensures |Slots(ds)| == TotalInputs(ds)
    decreases |ds|
  {
    hide Identified, CatalogOf, DescriptorKey;
    if ds != [] {
      var front, last := ds[..|ds| - 1], ds[|ds| - 1];
      LastIsNew(ds);
      SlotsCount(front);
      OwnSlotsCount(last);
      forall slot | slot in Slots(front)
        ensures slot !in OwnSlots(last)
      {
        SlotListed(front, slot);
      }
      assert Slots(front) !! OwnSlots(last);
    }
  }

  lemma {:induction false} EmptyCatalog()
    ensures CatalogOf([]) == map[]
  {
  }

  lemma {:induction false} EdgeSlots(edges: seq<PlanEdge>) returns (slots: seq<(string, nat)>)
    requires forall i, j :: 0 <= i < j < |edges| ==> SlotOf(edges[i]) != SlotOf(edges[j])
    ensures |slots| == |edges| && forall i :: 0 <= i < |slots| ==> slots[i] == SlotOf(edges[i])
    ensures |set x | x in slots| == |edges|
  {
    slots := seq(|edges|, i requires 0 <= i < |edges| => SlotOf(edges[i]));
    DistinctCount(slots);
  }

  /** Distinct edges over declared inputs, as many as there are inputs, leave none out. */
  lemma {:induction false} CountingCovers(ds: seq<Descriptor>, edges: seq<PlanEdge>, slot: (string, nat))
    requires Identified(ds) && |edges| == TotalInputs(ds) && Slot(CatalogOf(ds), slot)
    requires forall e :: e in edges ==> Slot(CatalogOf(ds), SlotOf(e))
    requires forall i, j :: 0 <= i < j < |edges| ==> SlotOf(edges[i]) != SlotOf(edges[j])
    ensures exists e :: e in edges && SlotOf(e) == slot
  {
    SlotsCount(ds);
    var slots := EdgeSlots(edges);
    var shown := set x | x in slots;
    hide Identified, TotalInputs, CatalogOf, Slots, Slot;
    forall x | x in shown
      ensures x in Slots(ds)
    {
      var i :| 0 <= i < |slots| && slots[i] == x;
      assert edges[i] in edges && SlotOf(edges[i]) == x;
      assert Slot(CatalogOf(ds), x);
      SlotListed(ds, x);
    }
    SlotListed(ds, slot);
    SameSize(shown, Slots(ds));
    var i :| 0 <= i < |slots| && slots[i] == slot;
    assert edges[i] in edges;
  }

  /** A bijection shows as many edges as there are inputs. */
  lemma {:induction false} CoveringCounts(ds: seq<Descriptor>, edges: seq<PlanEdge>)
    requires Identified(ds)
    requires forall e :: e in edges ==> Slot(CatalogOf(ds), SlotOf(e))
    requires forall i, j :: 0 <= i < j < |edges| ==> SlotOf(edges[i]) != SlotOf(edges[j])
    requires forall slot :: Slot(CatalogOf(ds), slot) ==> exists e :: e in edges && SlotOf(e) == slot
    ensures |edges| == TotalInputs(ds)
  {
    SlotsCount(ds);
    var slots := EdgeSlots(edges);
    hide Identified, TotalInputs, CatalogOf, Slots, Slot;
    forall x
      ensures x in Slots(ds) <==> x in slots
    {
      SlotListed(ds, x);
      if x in Slots(ds) {
        assert Slot(CatalogOf(ds), x);
        var e :| e in edges && SlotOf(e) == x;
        var i :| 0 <= i < |edges| && edges[i] == e;
        assert slots[i] == x;
      }
      if x in slots {
        var i :| 0 <= i < |slots| && slots[i] == x;
        assert edges[i] in edges && SlotOf(edges[i]) == x;
        assert Slot(CatalogOf(ds), x);
      }
    }
    assert Slots(ds) == set x | x in slots;
  }

  // ---------------------------------------------------------------- the check

  ghost function Ids(ds: seq<Descriptor>): set<string>
  {
    set i | 0 <= i < |ds| :: ds[i].id
  }

  /** A descriptor extends an identified list exactly when its key and identifier are new. */
  lemma {:induction false} OneMoreIdentified(ds: seq<Descriptor>, n: nat)
    requires n < |ds| && Identified(ds[..n])
    ensures Identified(ds[..n + 1]) <==> DescriptorKey(ds[n]) !in CatalogOf(ds[..n]) && ds[n].id !in Ids(ds[..n])
    ensures CatalogOf(ds[..n + 1]) == CatalogOf(ds[..n])[DescriptorKey(ds[n]) := ds[n]]
    ensures Ids(ds[..n + 1]) == Ids(ds[..n]) + {ds[n].id}
  {
    var front, d := ds[..n], ds[n];
    assert ds[..n + 1] == front + [d];
    hide *;
    KeyInCatalog(front, DescriptorKey(d));
    OneMoreDiffers(front, d);
    OneMoreCataloged(front, d);
  }

  lemma {:induction false} OneMoreDiffers(ds: seq<Descriptor>, d: Descriptor)
    requires Identified(ds)
    ensures Identified(ds + [d]) <==>
            (!exists i :: 0 <= i < |ds| && DescriptorKey(ds[i]) == DescriptorKey(d)) && d.id !in Ids(ds)
  {
    hide DescriptorKey;
    var more := ds + [d];
    assert more[|ds|] == d && forall i :: 0 <= i < |ds| ==> more[i] == ds[i];
    if Identified(more) {
      forall i | 0 <= i < |ds|
        ensures DescriptorKey(ds[i]) != DescriptorKey(d) && ds[i].id != d.id
      {
        assert DescriptorKey(more[i]) != DescriptorKey(more[|ds|]) && more[i].id != more[|ds|].id;
      }
    }
  }

  lemma {:induction false} OneMoreCataloged(ds: seq<Descriptor>, d: Descriptor)
    ensures CatalogOf(ds + [d]) == CatalogOf(ds)[DescriptorKey(d) := d]
    ensures Ids(ds + [d]) == Ids(ds) + {d.id}
  {
    var more := ds + [d];
    assert more[..|more| - 1] == ds && more[|more| - 1] == d;
    CatalogSplit(more);
    hide CatalogOf, DescriptorKey;
    forall x
      ensures x in Ids(more) <==> x in Ids(ds) || x == d.id
    {
      if x in Ids(ds) {
        var i :| 0 <= i < |ds| && ds[i].id == x;
        assert more[i].id == x;
      }
    }
  }

  lemma {:induction false} PrefixIdentified(ds: seq<Descriptor>, n: nat)
    requires n <= |ds| && Identified(ds)
    ensures Identified(ds[..n])
  {
    hide DescriptorKey;
  }

  /** Descriptors by key; a repeated key or identifier is refused. */
  method IndexDescriptors(ds: seq<Descriptor>) returns (ok: bool, products: Catalog)
    ensures ok <==> Identified(ds)
    ensures ok ==> products == CatalogOf(ds)
  {
    hide CatalogOf, DescriptorKey, Identified;
    products := map[];
    var ids: set<string> := {};
    EmptyCatalog();
    assert Identified(ds[..0]) && ds[..0] == [] by {
      NothingIdentified(ds);
    }
    for next := 0 to |ds|
      invariant Identified(ds[..next]) && products == CatalogOf(ds[..next]) && ids == Ids(ds[..next])
    {
      var d := ds[next];
      var key := DescriptorKey(d);
      OneMoreIdentified(ds, next);
      if key in products || d.id in ids {
        ok := false;
        if Identified(ds) {
          PrefixIdentified(ds, next + 1);
        }
        return;
      }
      products := products[key := d];
      ids := ids + {d.id};
    }
    assert ds[..|ds|] == ds;
    ok := true;
  }

  lemma {:induction false} NothingIdentified(ds: seq<Descriptor>)
    ensures Identified(ds[..0]) && ds[..0] == []
  {
  }

  /** The position of each key in the order, and the origin it was given. */
  ghost predicate Ranked(order: seq<PlanProduct>, rank: map<string, nat>, origins: map<string, Origin>)
  {
    && rank.Keys == origins.Keys
    && (forall k {:trigger rank[k]} :: k in rank ==>
          rank[k] < |order| && order[rank[k]].key == k && origins[k] == order[rank[k]].origin)
    && forall i {:trigger order[i]} :: 0 <= i < |order| ==> order[i].key in rank && rank[order[i].key] == i
  }

  /** The entries fit, with distinct keys and positions. */
  ghost predicate EntriesFit(r: Complete, c: Catalog, order: seq<PlanProduct>)
  {
    && (forall entry :: entry in order ==> EntryFits(r, c, entry))
    && forall i, j :: 0 <= i < j < |order| ==> order[i].key != order[j].key && order[i].origin != order[j].origin
  }

  ghost function Origins(order: seq<PlanProduct>): set<Origin>
  {
    set i | 0 <= i < |order| :: order[i].origin
  }

  lemma {:induction false} OneMoreEntry(r: Complete, c: Catalog, order: seq<PlanProduct>, n: nat,
                                        rank: map<string, nat>, origins: map<string, Origin>)
    requires n < |order| && EntriesFit(r, c, order[..n]) && Ranked(order[..n], rank, origins)
    ensures EntriesFit(r, c, order[..n + 1]) <==>
            EntryFits(r, c, order[n]) && order[n].key !in rank && order[n].origin !in Origins(order[..n])
    ensures Origins(order[..n + 1]) == Origins(order[..n]) + {order[n].origin}
    ensures order[n].key !in rank ==>
              Ranked(order[..n + 1], rank[order[n].key := n], origins[order[n].key := order[n].origin])
  {
    var before, entry := order[..n], order[n];
    assert order[..n + 1] == before + [entry];
    hide *;
    if entry.key !in rank {
      RankedGrows(before, rank, origins, entry);
    }
    KnownKeys(before, rank, origins, entry.key);
    EntriesGrow(r, c, before, entry);
  }

  lemma {:induction false} KnownKeys(order: seq<PlanProduct>, rank: map<string, nat>, origins: map<string, Origin>,
                                     key: string)
    requires Ranked(order, rank, origins)
    ensures key in rank <==> exists i :: 0 <= i < |order| && order[i].key == key
  {
  }

  lemma {:induction false} EntriesGrow(r: Complete, c: Catalog, order: seq<PlanProduct>, entry: PlanProduct)
    requires EntriesFit(r, c, order)
    ensures EntriesFit(r, c, order + [entry]) <==>
            && EntryFits(r, c, entry) && entry.origin !in Origins(order)
            && !exists i :: 0 <= i < |order| && order[i].key == entry.key
    ensures Origins(order + [entry]) == Origins(order) + {entry.origin}
  {
    hide EntryFits;
    var more := order + [entry];
    assert more[|order|] == entry && forall i :: 0 <= i < |order| ==> more[i] == order[i];
    if EntriesFit(r, c, more) {
      assert entry in more;
      forall i | 0 <= i < |order|
        ensures order[i].key != entry.key && order[i].origin != entry.origin
      {
        assert more[i].key != more[|order|].key && more[i].origin != more[|order|].origin;
      }
    }
    forall o
      ensures o in Origins(more) <==> o in Origins(order) || o == entry.origin
    {
      if o in Origins(order) {
        var i :| 0 <= i < |order| && order[i].origin == o;
        assert more[i].origin == o;
      }
    }
  }

  lemma {:induction false} PrefixEntriesFit(r: Complete, c: Catalog, order: seq<PlanProduct>, n: nat)
    requires n <= |order| && EntriesFit(r, c, order)
    ensures EntriesFit(r, c, order[..n])
  {
    hide EntryFits;
    assert forall entry :: entry in order[..n] ==> entry in order;
  }

  lemma {:induction false} NoEntries(r: Complete, c: Catalog, order: seq<PlanProduct>)
    ensures EntriesFit(r, c, order[..0]) && Ranked(order[..0], map[], map[]) && Origins(order[..0]) == {}
    ensures order[..|order|] == order
    ensures OrderFits(r, c, order) <==> |order| == |r.descriptors| && EntriesFit(r, c, order)
  {
  }

  method CheckOrder(r: Complete, products: Catalog, order: seq<PlanProduct>)
    returns (ok: bool, rank: map<string, nat>, origins: map<string, Origin>)
    ensures ok <==> OrderFits(r, products, order)
    ensures ok ==> Ranked(order, rank, origins)
  {
    hide *;
    rank, origins := map[], map[];
    NoEntries(r, products, order);
    if |order| != |r.descriptors| {
      return false, rank, origins;
    }
    var usedPositions: set<Origin> := {};
    for index := 0 to |order|
      invariant EntriesFit(r, products, order[..index]) && Ranked(order[..index], rank, origins)
      invariant usedPositions == Origins(order[..index])
    {
      var entry := order[index];
      OneMoreEntry(r, products, order, index, rank, origins);
      if !EntryFits(r, products, entry) || entry.key in rank || entry.origin in usedPositions {
        ok := false;
        if EntriesFit(r, products, order) {
          PrefixEntriesFit(r, products, order, index + 1);
        }
        return;
      }
      usedPositions := usedPositions + {entry.origin};
      rank := rank[entry.key := index];
      origins := origins[entry.key := entry.origin];
    }
    ok := true;
  }

  lemma {:induction false} RankedGrows(order: seq<PlanProduct>, rank: map<string, nat>, origins: map<string, Origin>,
                                       entry: PlanProduct)
    requires Ranked(order, rank, origins) && entry.key !in rank
    ensures Ranked(order + [entry], rank[entry.key := |order|], origins[entry.key := entry.origin])
  {
    var more := order + [entry];
    forall i {:trigger more[i]} | 0 <= i < |more|
      ensures more[i].key in rank[entry.key := |order|] && rank[entry.key := |order|][more[i].key] == i
    {
      if i < |order| {
        assert more[i] == order[i];
      }
    }
  }

  /** The checker's own condition on one edge. */
  predicate EdgeFits(c: Catalog, rank: map<string, nat>, origins: map<string, Origin>, e: PlanEdge)
  {
    && e.consumer in rank && e.producer in rank && e.consumer in origins && Repeats(c, e)
    && rank[e.producer] < rank[e.consumer] && e.origin == origins[e.consumer]
  }

  lemma {:induction false} EdgeFitsInOrder(c: Catalog, order: seq<PlanProduct>, rank: map<string, nat>,
                                           origins: map<string, Origin>, e: PlanEdge)
    requires Ranked(order, rank, origins)
    ensures EdgeFits(c, rank, origins, e) <==> Repeats(c, e) && InOrder(order, e)
  {
    hide Repeats;
    if EdgeFits(c, rank, origins, e) {
      assert order[rank[e.producer]].key == e.producer && order[rank[e.consumer]].key == e.consumer;
    }
    if Repeats(c, e) && InOrder(order, e) {
      var i, j :| 0 <= i < j < |order| && order[i].key == e.producer && order[j].key == e.consumer
                  && order[j].origin == e.origin;
      assert rank[e.producer] == i && rank[e.consumer] == j;
    }
  }

  /** The index of a slot is below the number of all inputs. */
  lemma {:induction false} SlotBelowTotal(ds: seq<Descriptor>, slot: (string, nat))
    requires Slot(CatalogOf(ds), slot)
    ensures slot.1 < TotalInputs(ds)
    decreases |ds|
  {
    if ds != [] && slot.0 != DescriptorKey(ds[|ds| - 1]) {
      SlotBelowTotal(ds[..|ds| - 1], slot);
    }
  }

  method CheckEdges(ghost ds: seq<Descriptor>, ghost order: seq<PlanProduct>, products: Catalog, rank: map<string, nat>,
                    origins: map<string, Origin>,
                    edges: seq<PlanEdge>)
    returns (ok: bool)
    requires Ranked(order, rank, origins) && products == CatalogOf(ds) && TotalInputs(ds) <= MAX_EDGES
    ensures ok <==> EdgesFit(products, order, edges)
  {
    hide EdgeFits, Ranked, Repeats, InOrder, CatalogOf, TotalInputs, SlotText, SlotTexts;
    NoSlots(edges);
    var seen: set<string> := {};
    for next := 0 to |edges|
      invariant forall i {:trigger edges[i]} :: 0 <= i < next ==>
                  Repeats(products, edges[i]) && InOrder(order, edges[i])
      invariant forall i, j :: 0 <= i < j < next ==> SlotOf(edges[i]) != SlotOf(edges[j])
      invariant seen == SlotTexts(edges, next)
    {
      var edge := edges[next];
      EdgeFitsInOrder(products, order, rank, origins, edge);
      RepeatsBelow(ds, edge);
      if edge.index >= MAX_EDGES || !EdgeFits(products, rank, origins, edge) {
        assert edge in edges;
        return false;
      }
      SeenSlots(edges, next);
      if SlotText(SlotOf(edge)) in seen {
        return false;
      }
      seen := seen + {SlotText(SlotOf(edge))};
    }
    ok := true;
  }

  ghost function SlotTexts(edges: seq<PlanEdge>, n: nat): set<string>
    requires n <= |edges|
  {
    set i | 0 <= i < n :: SlotText(SlotOf(edges[i]))
  }

  lemma {:induction false} NoSlots(edges: seq<PlanEdge>)
    ensures SlotTexts(edges, 0) == {}
  {
  }

  lemma {:induction false} RepeatsBelow(ds: seq<Descriptor>, e: PlanEdge)
    ensures Repeats(CatalogOf(ds), e) ==> e.index < TotalInputs(ds)
  {
    if Repeats(CatalogOf(ds), e) {
      SlotBelowTotal(ds, SlotOf(e));
    }
  }

  /** The text of an edge's slot was seen exactly when the slot was. */
  lemma {:induction false} SeenSlots(edges: seq<PlanEdge>, n: nat)
    requires n < |edges|
    ensures SlotText(SlotOf(edges[n])) in SlotTexts(edges, n) <==>
              exists i :: 0 <= i < n && SlotOf(edges[i]) == SlotOf(edges[n])
    ensures SlotTexts(edges, n + 1) == SlotTexts(edges, n) + {SlotText(SlotOf(edges[n]))}
  {
    hide SlotText;
    if SlotText(SlotOf(edges[n])) in SlotTexts(edges, n) {
      var i :| 0 <= i < n && SlotText(SlotOf(edges[i])) == SlotText(SlotOf(edges[n]));
      SlotTextInjective(SlotOf(edges[i]), SlotOf(edges[n]));
    }
  }

  // ---------------------------------------------------------------- slots as text

  /** The key under which the check remembers an edge. */
  function SlotText(slot: (string, nat)): string
  {
    slot.0 + "/" + DecimalText(slot.1)
  }

  /** The text after the last slash is the index, so the text determines the slot. */
  lemma {:induction false} SlotTextInjective(a: (string, nat), b: (string, nat))
    requires SlotText(a) == SlotText(b)
    ensures a == b
  {
    var x, y := DecimalText(a.1), DecimalText(b.1);
    DecimalIsDigits(a.1);
    DecimalIsDigits(b.1);
    SplitAtSlash(a.0, x, b.0, y);
    DecimalInjective(a.1, b.1);
  }

  lemma {:induction false} SplitAtSlash(a: string, x: string, b: string, y: string)
    requires a + "/" + x == b + "/" + y && '/' !in x && '/' !in y
    ensures a == b && x == y
  {
    var t := a + "/" + x;
    LastSlash(a, x);
    LastSlash(b, y);
    assert t == b + "/" + y && |a| == |b|;
    assert t[..|a|] == a && t[..|b|] == b;
    assert t[|a| + 1..] == x && t[|b| + 1..] == y;
  }

  /** The slash is the last one. */
  lemma {:induction false} LastSlash(a: string, x: string)
    requires '/' !in x
    ensures var t := a + "/" + x;
            t[|a|] == '/' && forall i :: |a| < i < |t| ==> t[i] != '/'
  {
    var t := a + "/" + x;
    forall i | |a| < i < |t|
      ensures t[i] != '/'
    {
      assert t[i] == x[i - |a| - 1] && x[i - |a| - 1] in x;
    }
  }

  method CountInputs(ds: seq<Descriptor>) returns (expected: nat)
    ensures expected == TotalInputs(ds)
  {
    expected := 0;
    for next := 0 to |ds|
      invariant expected == TotalInputs(ds[..next])
    {
      var more := ds[..next + 1];
      assert more[..next] == ds[..next] && more[next] == ds[next];
      expected := expected + |ds[next].inputs|;
    }
    assert ds[..|ds|] == ds;
  }

  /** The plan section of the report check accepts exactly the sound plans. */
  method ValidPlan(r: Complete, plan: ReviewPlan) returns (ok: bool)
    ensures ok <==> PlanSound(r, plan)
  {
    hide *;
    PlanSoundIs(r, plan);
    if |r.descriptors| == 0 || |r.descriptors| > MAX_PRODUCTS || |r.features| != |r.descriptors| {
      return false;
    }
    var identified, products := IndexDescriptors(r.descriptors);
    if !identified {
      return false;
    }
    var ordered, rank, origins := CheckOrder(r, products, plan.order);
    if !ordered {
      return false;
    }
    var expected := CountInputs(r.descriptors);
    if |plan.edges| > MAX_EDGES || |plan.edges| != expected {
      return false;
    }
    ok := CheckEdges(r.descriptors, plan.order, products, rank, origins, plan.edges);
  }

  /** The checker counts instead of looking for each product and each input. */
  lemma {:induction false} PlanSoundIs(r: Complete, plan: ReviewPlan)
    ensures PlanSound(r, plan) <==>
            var c := CatalogOf(r.descriptors);
            && 0 < |r.descriptors| <= MAX_PRODUCTS && |r.features| == |r.descriptors| && Identified(r.descriptors)
            && OrderFits(r, c, plan.order)
            && |plan.edges| <= MAX_EDGES && |plan.edges| == TotalInputs(r.descriptors)
            && EdgesFit(c, plan.order, plan.edges)
  {
    var ds := r.descriptors;
    var c := CatalogOf(ds);
    hide InOrder, CatalogOf, TotalInputs, Slot, EntryFits;
    if Identified(ds) && OrderFits(r, c, plan.order) && EdgesFit(c, plan.order, plan.edges) {
      EdgesShow(c, plan.order, plan.edges);
      if |plan.edges| == TotalInputs(ds) {
        OrderCovers(r, plan.order);
        forall slot | Slot(c, slot)
          ensures exists e :: e in plan.edges && SlotOf(e) == slot
        {
          CountingCovers(ds, plan.edges, slot);
        }
      }
      if forall slot :: Slot(c, slot) ==> exists e :: e in plan.edges && SlotOf(e) == slot {
        CoveringCounts(ds, plan.edges);
      }
    }
  }

  lemma {:induction false} EdgesShow(c: Catalog, order: seq<PlanProduct>, edges: seq<PlanEdge>)
    requires EdgesFit(c, order, edges)
    ensures forall e :: e in edges ==> Slot(c, SlotOf(e))
    ensures forall i, j :: 0 <= i < j < |edges| ==> SlotOf(edges[i]) != SlotOf(edges[j])
  {
    hide InOrder, Slot;
  }

  /** As many distinct keys as products are all keys. */
  lemma {:induction false} OrderCovers(r: Complete, order: seq<PlanProduct>)
    requires Identified(r.descriptors) && OrderFits(r, CatalogOf(r.descriptors), order)
    ensures (set entry | entry in order :: entry.key) == CatalogOf(r.descriptors).Keys
  {
    var c := CatalogOf(r.descriptors);
    var keys := OrderKeys(order);
    DistinctCount(keys);
    assert forall i :: 0 <= i < |order| ==> order[i] in order && keys[i] == order[i].key;
    var named := set entry | entry in order :: entry.key;
    assert named == set k | k in keys by {
      forall k | k in named
        ensures k in keys
      {
        var entry :| entry in order && entry.key == k;
        var i :| 0 <= i < |order| && order[i] == entry;
        assert keys[i] == k;
      }
    }
    CatalogCount(r.descriptors);
    hide EntryFits, CatalogOf;
    assert forall entry :: entry in order ==> EntryFits(r, c, entry);
    forall k | k in named
      ensures k in c.Keys
    {
      var entry :| entry in order && entry.key == k;
      EntryKnown(r, c, entry);
    }
    SameSize(named, c.Keys);
  }

  lemma {:induction false} EntryKnown(r: Complete, c: Catalog, entry: PlanProduct)
    requires EntryFits(r, c, entry)
    ensures entry.key in c
  {
  }

  lemma {:induction false} CatalogCount(ds: seq<Descriptor>)
    requires Identified(ds)
    ensures |CatalogOf(ds).Keys| == |ds|
    decreases |ds|
  {
    hide CatalogOf, DescriptorKey, Identified;
    if ds == [] {
      EmptyCatalog();
    } else {
      var front, last := ds[..|ds| - 1], ds[|ds| - 1];
      LastIsNew(ds);
      CatalogCount(front);
      assert CatalogOf(ds).Keys == CatalogOf(front).Keys + {DescriptorKey(last)};
    }
  }
}
