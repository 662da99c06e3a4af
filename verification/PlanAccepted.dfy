/** Every plan built for an admitted, complete bundle passes the browser's independent check. */
module PlanAccepted {
  import opened Products
  import opened Compatibility
  import opened Digraph
  import opened Bundle
  import opened Plan
  import opened PlanCheck
  import Preflight
  import Deployment
  import Order
  import Witness
  import Findings

  predicate Describes(d: Descriptor, p: Product)
  {
    d.ns == p.key.ns && d.name == p.key.name && d.inputs == p.inputs && d.outputs == p.outputs
  }

  /** The report of a bundle: descriptors, positions and features of its documents. */
  ghost predicate Published(docs: seq<Document>, r: Complete)
  {
    && |r.descriptors| == |docs|
    && (forall i {:trigger r.descriptors[i]} {:trigger docs[i]} :: 0 <= i < |docs| ==>
          && Describes(r.descriptors[i], docs[i].product)
          && ValidPosition(r.sources, docs[i].origin)
          && docs[i].origin in r.features && RequiredFeatures(r.descriptors[i]) <= r.features[docs[i].origin])
    && (forall i, j :: 0 <= i < j < |docs| ==> r.descriptors[i].id != r.descriptors[j].id)
    && forall o {:trigger r.features[o]} :: o in r.features ==> exists i :: 0 <= i < |docs| && docs[i].origin == o
  }

  /** A complete bundle has a plan. */
  lemma {:induction false} CompleteIsPlanned(docs: seq<Document>)
    requires Preflight.BundleComplete(docs)
    ensures Closed(ByKey(docs)) && Acyclic(Needs(ByKey(docs)))
  {
    var m := ByKey(docs);
    forall k | k in m
      ensures Producers(m[k]) <= m.Keys
    {
      CompleteIsClosed(docs, k);
    }
    hide Producers, ByKey;
    ClosedLinks(m);
    CompleteIsAcyclic(docs);
  }

  lemma {:induction false} CompleteIsAcyclic(docs: seq<Document>)
    requires Preflight.BundleComplete(docs)
    ensures Acyclic(Links(ByKey(docs)))
  {
    hide Links, ByKey, Acyclic;
  }

  lemma {:induction false} CompleteIsClosed(docs: seq<Document>, k: string)
    requires Preflight.BundleComplete(docs) && k in ByKey(docs)
    ensures Producers(ByKey(docs)[k]) <= ByKey(docs).Keys
  {
    var m := ByKey(docs);
    var d := m[k];
    assert d in docs && Preflight.AllPresent(m, docs);
    hide Preflight.BundleComplete, ByKey, Producer;
    forall t | t in Producers(d)
      ensures t in m
    {
      var i :| 0 <= i < |d.product.inputs| && t == Producer(d.product, d.product.inputs[i]);
      assert d.product.inputs[i] in d.product.inputs;
    }
  }

  // ---------------------------------------------------------------- declared edges

  lemma {:induction false} EdgesOfAt(doc: Document, n: nat)
    requires n <= |doc.product.inputs|
    ensures |EdgesOf(doc, n)| == n && forall i :: 0 <= i < n ==> EdgesOf(doc, n)[i] == EdgeAt(doc, i)
    decreases n
  {
    hide EdgeAt;
    if n > 0 {
      EdgesOfAt(doc, n - 1);
    }
  }

  ghost predicate IsEdge(docs: seq<Document>, e: PlanEdge)
  {
    exists d, i {:trigger EdgeAt(d, i)} :: d in docs && 0 <= i < |d.product.inputs| && e == EdgeAt(d, i)
  }

  lemma {:induction false} DeclaredEdgesAre(docs: seq<Document>, e: PlanEdge)
    ensures e in DeclaredEdges(docs) <==> IsEdge(docs, e)
    decreases |docs|
  {
    hide EdgeAt, EdgesOf;
    if docs != [] {
      var front, last := docs[..|docs| - 1], docs[|docs| - 1];
      DeclaredEdgesAre(front, e);
      EdgesOfAt(last, |last.product.inputs|);
      assert docs == front + [last];
      if e in DeclaredEdges(front) {
        var d, i :| d in front && 0 <= i < |d.product.inputs| && e == EdgeAt(d, i);
        assert d in docs;
      }
      if IsEdge(docs, e) {
        var d, i :| d in docs && 0 <= i < |d.product.inputs| && e == EdgeAt(d, i);
        if d in front {
          assert IsEdge(front, e);
        } else {
          assert e == EdgesOf(last, |last.product.inputs|)[i];
        }
      }
    }
  }

  lemma {:induction false} DeclaredEdgesCount(docs: seq<Document>)
    ensures |DeclaredEdges(docs)| == Preflight.TotalInputs(docs)
    decreases |docs|
  {
    if docs != [] {
      DeclaredEdgesCount(docs[..|docs| - 1]);
      EdgesOfAt(docs[|docs| - 1], |docs[|docs| - 1].product.inputs|);
    }
  }

  /** With distinct keys, declared edges show distinct inputs. */
  lemma {:induction false} DeclaredEdgesDistinct(docs: seq<Document>)
    requires forall i, j :: 0 <= i < j < |docs| ==> KeyOf(docs[i]) != KeyOf(docs[j])
    ensures forall i, j :: 0 <= i < j < |DeclaredEdges(docs)| ==>
              SlotOf(DeclaredEdges(docs)[i]) != SlotOf(DeclaredEdges(docs)[j])
    decreases |docs|
  {
    if docs != [] {
      var front, last := docs[..|docs| - 1], docs[|docs| - 1];
      var a, b := DeclaredEdges(front), EdgesOf(last, |last.product.inputs|);
      DeclaredEdgesDistinct(front);
      EdgesOfAt(last, |last.product.inputs|);
      assert DeclaredEdges(docs) == a + b;
      hide DeclaredEdges, EdgesOf;
      forall i, j | 0 <= i < j < |a + b|
        ensures SlotOf((a + b)[i]) != SlotOf((a + b)[j])
      {
        if i < |a| <= j {
          DeclaredEdgesAre(front, a[i]);
          var d, n :| d in front && 0 <= n < |d.product.inputs| && a[i] == EdgeAt(d, n);
          var x :| 0 <= x < |front| && front[x] == d;
          assert docs[x] == d && KeyOf(d) != KeyOf(last);
          assert b[j - |a|] == EdgeAt(last, j - |a|);
        } else if i >= |a| {
          assert b[i - |a|] == EdgeAt(last, i - |a|) && b[j - |a|] == EdgeAt(last, j - |a|);
        }
      }
    }
  }

  // ---------------------------------------------------------------- the catalog of the report

  /** Key by key, the catalog of the report describes the documents of the bundle. */
  lemma {:induction false} CatalogMatches(docs: seq<Document>, r: Complete, i: nat)
    requires Distinguished(docs) && Published(docs, r) && i < |docs|
    ensures Identified(r.descriptors)
    ensures var k := KeyOf(docs[i]);
            && k in ByKey(docs) && ByKey(docs)[k] == docs[i]
            && k in CatalogOf(r.descriptors) && CatalogOf(r.descriptors)[k] == r.descriptors[i]
            && Describes(r.descriptors[i], docs[i].product)
  {
    hide ByKey, CatalogOf, ValidPosition, RequiredFeatures;
    DescriptorsIdentified(docs, r);
    KeyedDocument(docs, i);
    CatalogOfOne(r.descriptors, i);
    assert DescriptorKey(r.descriptors[i]) == KeyOf(docs[i]);
  }

  lemma {:induction false} DescriptorsIdentified(docs: seq<Document>, r: Complete)
    requires Distinguished(docs) && Published(docs, r)
    ensures Identified(r.descriptors)
  {
    hide ValidPosition, RequiredFeatures;
    forall i, j | 0 <= i < j < |docs|
      ensures DescriptorKey(r.descriptors[i]) != DescriptorKey(r.descriptors[j])
    {
      assert DescriptorKey(r.descriptors[i]) == KeyOf(docs[i]) && DescriptorKey(r.descriptors[j]) == KeyOf(docs[j]);
    }
  }

  lemma {:induction false} SameKey(docs: seq<Document>, r: Complete, k: string)
    requires Distinguished(docs) && Published(docs, r)
    ensures k in CatalogOf(r.descriptors) <==> k in ByKey(docs)
  {
    hide *;
    SameCount(docs, r);
    KeyInCatalog(r.descriptors, k);
    if k in ByKey(docs) {
      var i := IndexOf(docs, ByKey(docs)[k]);
      CatalogMatches(docs, r, i);
    }
    if k in CatalogOf(r.descriptors) {
      var i :| 0 <= i < |r.descriptors| && DescriptorKey(r.descriptors[i]) == k;
      CatalogMatches(docs, r, i);
      DescriptionKey(r.descriptors[i], docs[i]);
    }
  }

  lemma {:induction false} DescriptionKey(d: Descriptor, doc: Document)
    requires Describes(d, doc.product)
    ensures DescriptorKey(d) == KeyOf(doc)
  {
  }

  lemma {:induction false} SameKeys(docs: seq<Document>, r: Complete)
    requires Distinguished(docs) && Published(docs, r)
    ensures CatalogOf(r.descriptors).Keys == ByKey(docs).Keys
    ensures |ByKey(docs)| == |docs|
  {
    hide *;
    var m, c := ByKey(docs), CatalogOf(r.descriptors);
    DescriptorsIdentified(docs, r);
    CatalogCount(r.descriptors);
    SameCount(docs, r);
    forall k
      ensures k in c.Keys <==> k in m.Keys
    {
      SameKey(docs, r, k);
    }
    assert c.Keys == m.Keys;
    assert |m.Keys| == |m|;
  }

  lemma {:induction false} SameCount(docs: seq<Document>, r: Complete)
    requires Published(docs, r)
    ensures |r.descriptors| == |docs|
  {
  }

  function IndexOf(docs: seq<Document>, d: Document): (i: nat)
    requires d in docs
    ensures i < |docs| && docs[i] == d
  {
    if docs[0] == d then 0 else 1 + IndexOf(docs[1..], d)
  }

  lemma {:induction false} FeaturesCount(docs: seq<Document>, r: Complete)
    requires Distinguished(docs) && Published(docs, r)
    ensures |r.features| == |docs|
  {
    hide *;
    var origins := seq(|docs|, i requires 0 <= i < |docs| => docs[i].origin);
    OriginsDiffer(docs);
    DistinctCount(origins);
    forall o
      ensures o in r.features.Keys <==> o in origins
    {
      FeaturesAt(docs, r, o);
      if i :| 0 <= i < |docs| && docs[i].origin == o {
        assert origins[i] == o;
      }
    }
    assert r.features.Keys == set o | o in origins;
    assert |r.features.Keys| == |r.features|;
  }

  lemma {:induction false} OriginsDiffer(docs: seq<Document>)
    requires Distinguished(docs)
    ensures forall i, j :: 0 <= i < j < |docs| ==> docs[i].origin != docs[j].origin
  {
    hide KeyOf;
  }

  lemma {:induction false} FeaturesAt(docs: seq<Document>, r: Complete, o: Origin)
    requires Published(docs, r)
    ensures o in r.features <==> exists i :: 0 <= i < |docs| && docs[i].origin == o
  {
    hide ValidPosition, RequiredFeatures, Describes;
    if o in r.features {
      assert r.features[o] == r.features[o];
    }
    if i :| 0 <= i < |docs| && docs[i].origin == o {
      assert docs[i] == docs[i];
    }
  }

  // ---------------------------------------------------------------- order

  lemma {:induction false} EntryHolds(docs: seq<Document>, r: Complete, entry: PlanProduct)
    requires Deployment.Admitted(docs) && Published(docs, r)
    requires entry.key in ByKey(docs) && entry.origin == ByKey(docs)[entry.key].origin
    ensures EntryFits(r, CatalogOf(r.descriptors), entry)
  {
    var d := ByKey(docs)[entry.key];
    var i := IndexOf(docs, d);
    CatalogMatches(docs, r, i);
    KeyLength(docs, d);
    hide Deployment.Admitted, ByKey, CatalogOf, ValidPosition, RequiredFeatures, KeyOf, Describes, Utf8Length;
  }

  /** Keys of admitted documents are at most 63 + 1 + 253 bytes. */
  lemma {:induction false} KeyLength(docs: seq<Document>, d: Document)
    requires Deployment.Admitted(docs) && d in docs
    ensures Utf8Length(KeyOf(d)) <= MAX_KEY
  {
    hide Distinguished, Utf8Length;
    assert d.product == d.product;
    AsciiLength(KeyOf(d));
  }

  /** A plan's order is a permutation of the keys, each with its document's position. */
  lemma {:induction false} PlanOrders(docs: seq<Document>, plan: ReviewPlan)
    requires IsPlan(docs, plan)
    ensures |plan.order| == |ByKey(docs)|
    ensures forall entry :: entry in plan.order ==>
              entry.key in ByKey(docs) && entry.origin == ByKey(docs)[entry.key].origin
    ensures forall i, j :: 0 <= i < j < |plan.order| ==> plan.order[i].key != plan.order[j].key
  {
    var m, keys := ByKey(docs), OrderKeys(plan.order);
    assert LeastOrder(m, keys);
    assert Topological(m, keys);
    hide IsPlan, LeastOrder, ByKey;
    SameLength(m, keys, keys);
    assert forall i, j :: 0 <= i < j < |keys| ==> keys[i] != keys[j];
  }

  lemma {:induction false} OrderHolds(docs: seq<Document>, r: Complete, plan: ReviewPlan)
    requires Deployment.Admitted(docs) && Published(docs, r) && IsPlan(docs, plan)
    ensures OrderFits(r, CatalogOf(r.descriptors), plan.order)
  {
    hide *;
    var c := CatalogOf(r.descriptors);
    AdmittedDistinguished(docs);
    SameKeys(docs, r);
    SameCount(docs, r);
    PlanOrders(docs, plan);
    forall entry | entry in plan.order
      ensures EntryFits(r, c, entry)
    {
      EntryHolds(docs, r, entry);
    }
    forall i, j | 0 <= i < j < |plan.order|
      ensures plan.order[i].key != plan.order[j].key && plan.order[i].origin != plan.order[j].origin
    {
      var a, b := plan.order[i], plan.order[j];
      assert a in plan.order && b in plan.order;
      DistinctOrigins(docs, ByKey(docs)[a.key], ByKey(docs)[b.key]);
    }
    OrderFitsIs(r, c, plan.order);
  }

  lemma {:induction false} AdmittedDistinguished(docs: seq<Document>)
    requires Deployment.Admitted(docs)
    ensures Distinguished(docs) && 1 <= |docs| <= MAX_PRODUCTS
    ensures forall i, j :: 0 <= i < j < |docs| ==> KeyOf(docs[i]) != KeyOf(docs[j])
  {
    hide KeyOf;
  }

  lemma {:induction false} OrderFitsIs(r: Complete, c: Catalog, order: seq<PlanProduct>)
    requires |order| == |r.descriptors| && forall entry :: entry in order ==> EntryFits(r, c, entry)
    requires forall i, j :: 0 <= i < j < |order| ==> order[i].key != order[j].key && order[i].origin != order[j].origin
    ensures OrderFits(r, c, order)
  {
    hide EntryFits;
  }

  lemma {:induction false} DistinctOrigins(docs: seq<Document>, a: Document, b: Document)
    requires Deployment.Admitted(docs) && a in docs && b in docs && a != b
    ensures a.origin != b.origin
  {
    var i, j := IndexOf(docs, a), IndexOf(docs, b);
    assert i < j || j < i;
  }

  // ---------------------------------------------------------------- edges

  lemma {:induction false} EdgeRepeats(docs: seq<Document>, r: Complete, d: Document, i: nat)
    requires Deployment.Admitted(docs) && Preflight.BundleComplete(docs) && Published(docs, r)
    requires d in docs && i < |d.product.inputs|
    ensures Repeats(CatalogOf(r.descriptors), EdgeAt(d, i))
  {
    hide *;
    var input := d.product.inputs[i];
    var t := Target(d.product.key, input);
    AdmittedDistinguished(docs);
    Deployment.InputSound(docs, d, input);
    var other := ByKey(docs)[Text(t)];
    var x, y := IndexOf(docs, d), IndexOf(docs, other);
    CatalogMatches(docs, r, x);
    CatalogMatches(docs, r, y);
    SameCount(docs, r);
    KeyText(other);
    AdmittedNamespace(docs, d);
    AdmittedNamespace(docs, other);
    Deployment.TextInjective(other.product.key, t);
    CompatibleHasOutput(input, other.product);
    DescribedRepeats(CatalogOf(r.descriptors), d, other, i, r.descriptors[x], r.descriptors[y]);
  }

  lemma {:induction false} KeyText(d: Document)
    ensures KeyOf(d) == Text(d.product.key)
  {
  }

  lemma {:induction false} AdmittedNamespace(docs: seq<Document>, d: Document)
    requires Deployment.Admitted(docs) && d in docs
    ensures '/' !in d.product.key.ns
  {
    assert d.product == d.product;
    hide Distinguished;
  }

  lemma {:induction false} DescribedRepeats(c: Catalog, d: Document, other: Document, i: nat, a: Descriptor,
                                            b: Descriptor)
    requires i < |d.product.inputs| && other.product.key == Target(d.product.key, d.product.inputs[i])
    requires Target(d.product.key, d.product.inputs[i]).ns == d.product.key.ns
    requires KeyOf(d) in c && c[KeyOf(d)] == a && Describes(a, d.product)
    requires KeyOf(other) in c && c[KeyOf(other)] == b && Describes(b, other.product)
    requires exists o :: o in other.product.outputs && o.name == d.product.inputs[i].ref.output
    ensures Repeats(c, EdgeAt(d, i))
  {
  }

  lemma {:induction false} CompatibleHasOutput(input: Input, p: Product)
    requires InputCompatibility(input, p) == NoReason
    ensures exists o :: o in p.outputs && o.name == input.ref.output
  {
  }

  lemma {:induction false} EdgeInOrder(docs: seq<Document>, plan: ReviewPlan, d: Document, n: nat)
    requires Deployment.Admitted(docs) && IsPlan(docs, plan) && d in docs && n < |d.product.inputs|
    ensures InOrder(plan.order, EdgeAt(d, n))
  {
    var m, keys, e := ByKey(docs), OrderKeys(plan.order), EdgeAt(d, n);
    KeyedMember(docs, d);
    assert Topological(m, keys);
    assert e.consumer in Elements(keys);
    var j := Position(keys, e.consumer);
    assert plan.order[j].key == e.consumer && plan.order[j] in plan.order;
    assert keys[j] == e.consumer && e.producer in Producers(m[keys[j]]);
    assert e.producer in Elements(keys[..j]);
    var i :| 0 <= i < j && keys[..j][i] == e.producer;
    assert plan.order[i].key == e.producer;
  }

  lemma {:induction false} EdgesHold(docs: seq<Document>, r: Complete, plan: ReviewPlan)
    requires Deployment.Admitted(docs) && Preflight.BundleComplete(docs) && Published(docs, r) && IsPlan(docs, plan)
    ensures EdgesFit(CatalogOf(r.descriptors), plan.order, plan.edges)
  {
    hide *;
    var edges := DeclaredEdges(docs);
    PlanEdges(docs, plan);
    AdmittedDistinguished(docs);
    forall e | e in plan.edges
      ensures Repeats(CatalogOf(r.descriptors), e) && InOrder(plan.order, e)
    {
      Order.PermutationMember(plan.edges, edges, e);
      DeclaredEdgesAre(docs, e);
      var d, i := EdgeFrom(docs, e);
      EdgeRepeats(docs, r, d, i);
      EdgeInOrder(docs, plan, d, i);
    }
    DeclaredEdgesDistinct(docs);
    DistinctSlots(edges, plan.edges);
    EdgesFitIs(CatalogOf(r.descriptors), plan.order, plan.edges);
  }

  lemma {:induction false} PlanEdges(docs: seq<Document>, plan: ReviewPlan)
    requires IsPlan(docs, plan)
    ensures multiset(plan.edges) == multiset(DeclaredEdges(docs))
  {
    hide LeastOrder, DeclaredEdges, ByKey;
  }

  lemma {:induction false} EdgeFrom(docs: seq<Document>, e: PlanEdge) returns (d: Document, i: nat)
    requires IsEdge(docs, e)
    ensures d in docs && i < |d.product.inputs| && e == EdgeAt(d, i)
  {
    hide EdgeAt;
    d, i :| d in docs && 0 <= i < |d.product.inputs| && e == EdgeAt(d, i);
  }

  lemma {:induction false} DistinctSlots(a: seq<PlanEdge>, b: seq<PlanEdge>)
    requires multiset(a) == multiset(b)
    requires forall i, j :: 0 <= i < j < |a| ==> SlotOf(a[i]) != SlotOf(a[j])
    ensures forall i, j :: 0 <= i < j < |b| ==> SlotOf(b[i]) != SlotOf(b[j])
  {
    Order.PermutationDistinct(a, b, SlotOf);
  }

  lemma {:induction false} EdgesFitIs(c: Catalog, order: seq<PlanProduct>, edges: seq<PlanEdge>)
    requires forall e :: e in edges ==> Repeats(c, e) && InOrder(order, e)
    requires forall i, j :: 0 <= i < j < |edges| ==> SlotOf(edges[i]) != SlotOf(edges[j])
    ensures EdgesFit(c, order, edges)
  {
    hide Repeats, InOrder, SlotOf;
  }

  lemma {:induction false} SlotHasEdge(docs: seq<Document>, r: Complete, plan: ReviewPlan, slot: (string, nat))
    requires Distinguished(docs) && Published(docs, r) && IsPlan(docs, plan)
    requires Slot(CatalogOf(r.descriptors), slot)
    ensures exists e :: e in plan.edges && SlotOf(e) == slot
  {
    SameKeys(docs, r);
    var d := ByKey(docs)[slot.0];
    assert multiset(plan.edges) == multiset(DeclaredEdges(docs));
    hide IsPlan, Published, CatalogOf, DeclaredEdges;
    CatalogMatches(docs, r, IndexOf(docs, d));
    var e := EdgeAt(d, slot.1);
    DeclaredEdgesAre(docs, e);
    Order.PermutationMember(plan.edges, DeclaredEdges(docs), e);
  }

  lemma {:induction false} EdgesCounted(docs: seq<Document>, plan: ReviewPlan)
    requires Preflight.BundleComplete(docs) && IsPlan(docs, plan)
    ensures |plan.edges| <= MAX_EDGES
  {
    assert Preflight.TotalInputs(docs) <= Preflight.MAX_INPUTS by {
      hide Preflight.TotalInputs, Witness.Bounded, Preflight.AllDeclarable, Preflight.AllPresent;
    }
    DeclaredEdgesCount(docs);
    assert |multiset(plan.edges)| == |plan.edges| && |multiset(DeclaredEdges(docs))| == |DeclaredEdges(docs)|;
  }

  lemma {:induction false} KeysOrdered(docs: seq<Document>, plan: ReviewPlan)
    requires IsPlan(docs, plan)
    ensures (set entry | entry in plan.order :: entry.key) == ByKey(docs).Keys
  {
    var m, keys := ByKey(docs), OrderKeys(plan.order);
    assert Topological(m, keys) && Elements(keys) == m.Keys;
    hide ByKey, DeclaredEdges;
    forall k | k in m
      ensures exists entry :: entry in plan.order && entry.key == k
    {
      assert k in Elements(keys);
      var i := Position(keys, k);
      assert plan.order[i] in plan.order && plan.order[i].key == k;
    }
  }

  /** Producer and checker agree: the plan of an admitted, complete bundle is always accepted. */
  lemma {:induction false} BundlePlanIsSound(docs: seq<Document>, r: Complete, plan: ReviewPlan)
    requires Deployment.Admitted(docs) && Preflight.BundleComplete(docs) && Published(docs, r) && IsPlan(docs, plan)
    ensures PlanSound(r, plan)
  {
    hide *;
    AdmittedDistinguished(docs);
    SameCount(docs, r);
    SameKeys(docs, r);
    FeaturesCount(docs, r);
    DescriptorsIdentified(docs, r);
    OrderHolds(docs, r, plan);
    KeysOrdered(docs, plan);
    EdgesCounted(docs, plan);
    EdgesHold(docs, r, plan);
    forall slot | Slot(CatalogOf(r.descriptors), slot)
      ensures exists e :: e in plan.edges && SlotOf(e) == slot
    {
      SlotHasEdge(docs, r, plan, slot);
    }
    SoundIs(r, plan);
  }

  lemma {:induction false} SoundIs(r: Complete, plan: ReviewPlan)
    requires 0 < |r.descriptors| <= MAX_PRODUCTS && |r.features| == |r.descriptors| && Identified(r.descriptors)
    requires OrderFits(r, CatalogOf(r.descriptors), plan.order)
    requires (set entry | entry in plan.order :: entry.key) == CatalogOf(r.descriptors).Keys
    requires |plan.edges| <= MAX_EDGES && EdgesFit(CatalogOf(r.descriptors), plan.order, plan.edges)
    requires forall slot :: Slot(CatalogOf(r.descriptors), slot) ==> exists e :: e in plan.edges && SlotOf(e) == slot
    ensures PlanSound(r, plan)
  {
    hide Identified, OrderFits, EdgesFit, CatalogOf, Slot;
  }

  /**
   The end of an offline check. A report without earlier findings gets a plan exactly when the graph check adds
   none, so the nil plan never reaches a complete report; and that plan is one the browser accepts.
   */
  method PlanBundle(report: Findings.Report, docs: seq<Document>, deadline: Option<nat>)
    returns (plan: Option<ReviewPlan>)
    requires report.Valid() && report.findings == []
    modifies report
    ensures report.Valid() && report.documents == old(report.documents) && report.failure == old(report.failure)
    ensures Findings.Placed(old(report.details), report.details, report.documents, report.failure)
    ensures Preflight.Adds(docs, report.findings)
    ensures plan.Some? <==> report.valid && report.complete
    ensures plan.Some? ==> Preflight.BundleComplete(docs) && IsPlan(docs, plan.value)
    ensures deadline.None? ==> (plan.Some? <==> Preflight.BundleComplete(docs))
    ensures forall r :: plan.Some? && Deployment.Admitted(docs) && Published(docs, r) ==> PlanSound(r, plan.value)
  {
    hide *;
    NothingFound(report);
    Preflight.CheckGraph(report, docs, deadline);
    assert report.findings[0..] == report.findings;
    ReportComplete(report);
    plan := None;
    if report.valid && report.complete {
      CompleteIsPlanned(docs);
      plan := ReviewOf(docs);
      forall r | Deployment.Admitted(docs) && Published(docs, r)
        ensures PlanSound(r, plan.value)
      {
        BundlePlanIsSound(docs, r, plan.value);
      }
    }
  }

  lemma {:induction false} NothingFound(report: Findings.Report)
    requires report.Valid() && report.findings == []
    ensures report.valid && report.complete
  {
  }

  lemma {:induction false} ReportComplete(report: Findings.Report)
    requires report.Valid()
    ensures report.complete <==> report.findings == []
    ensures report.findings == [] ==> report.valid
  {
  }
}
