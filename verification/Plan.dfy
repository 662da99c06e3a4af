/** The static review plan of a bundle: the least producer-first order and the sorted declared edges. */
module Plan {
  import opened Products
  import opened Digraph
  import opened Bundle
  import Order

  datatype PlanProduct = PlanProduct(key: string, origin: Origin)

  datatype PlanEdge = PlanEdge(consumer: string, producer: string, input: string, index: nat, output: string,
                               origin: Origin)

  datatype ReviewPlan = ReviewPlan(order: seq<PlanProduct>, edges: seq<PlanEdge>)

  // ---------------------------------------------------------------- orders

  ghost function Elements(order: seq<string>): set<string>
  {
    set k | k in order
  }

  /** A permutation of all keys in which every named producer stands before its consumers. */
  ghost predicate Topological(m: Index, order: seq<string>)
  {
    && (forall i, j :: 0 <= i < j < |order| ==> order[i] != order[j])
    && Elements(order) == m.Keys
    && forall i {:trigger order[i]} :: 0 <= i < |order| ==>
       order[i] in m && Producers(m[order[i]]) <= Elements(order[..i])
  }

  /** The lexicographically least producer-first order. */
  ghost predicate LeastOrder(m: Index, order: seq<string>)
  {
    Topological(m, order) && forall other :: Topological(m, other) ==> Order.KeyLeq(order, other)
  }

  /** A key whose producers are all done. */
  ghost predicate Ready(m: Index, done: set<string>, k: string)
  {
    k in m && k !in done && Producers(m[k]) <= done
  }

  /** Every entry was the least ready key when it was taken. */
  ghost predicate Greedy(m: Index, order: seq<string>)
  {
    forall i {:trigger order[i]} :: 0 <= i < |order| ==>
      && Ready(m, Elements(order[..i]), order[i])
      && forall k :: Ready(m, Elements(order[..i]), k) ==> Order.TextLeq(order[i], k)
  }

  lemma {:induction false} GreedyGrows(m: Index, order: seq<string>, k: string)
    requires Greedy(m, order) && Ready(m, Elements(order), k)
    requires forall x :: Ready(m, Elements(order), x) ==> Order.TextLeq(k, x)
    ensures Greedy(m, order + [k])
  {
    hide Ready, Elements;
    var more := order + [k];
    forall i {:trigger more[i]} | 0 <= i < |more|
      ensures Ready(m, Elements(more[..i]), more[i])
      ensures forall x :: Ready(m, Elements(more[..i]), x) ==> Order.TextLeq(more[i], x)
    {
      if i < |order| {
        assert more[..i] == order[..i] && more[i] == order[i];
      } else {
        assert more[..i] == order;
      }
    }
  }

  lemma {:induction false} GreedyDistinct(m: Index, order: seq<string>)
    requires Greedy(m, order)
    ensures forall i, j :: 0 <= i < j < |order| ==> order[i] != order[j]
    ensures Elements(order) <= m.Keys
  {
    forall i, j | 0 <= i < j < |order|
      ensures order[i] != order[j]
    {
      assert Ready(m, Elements(order[..j]), order[j]);
      assert order[..j][i] == order[i];
    }
    forall k | k in order
      ensures k in m
    {
      var i :| 0 <= i < |order| && order[i] == k;
      assert Ready(m, Elements(order[..i]), order[i]);
    }
  }

  lemma {:induction false} GreedyIsTopological(m: Index, order: seq<string>)
    requires Greedy(m, order) && Elements(order) == m.Keys
    ensures Topological(m, order)
  {
    GreedyDistinct(m, order);
    hide Elements;
    forall i {:trigger order[i]} | 0 <= i < |order|
      ensures order[i] in m && Producers(m[order[i]]) <= Elements(order[..i])
    {
      assert Ready(m, Elements(order[..i]), order[i]);
    }
  }

  /** In any producer-first order, what comes next is ready. */
  lemma {:induction false} NextIsReady(m: Index, other: seq<string>, i: nat)
    requires Topological(m, other) && i < |other|
    ensures Ready(m, Elements(other[..i]), other[i])
  {
    assert other[i] in m && Producers(m[other[i]]) <= Elements(other[..i]);
    assert forall j :: 0 <= j < i ==> other[..i][j] == other[j] != other[i];
  }

  /** Taking the least ready key at every step gives the least order, from any common beginning on. */
  lemma {:induction false} GreedyIsLeast(m: Index, order: seq<string>, other: seq<string>, i: nat)
    requires Greedy(m, order) && Topological(m, other) && |order| == |other|
    requires i <= |order| && order[..i] == other[..i]
    ensures Order.KeyLeq(order[i..], other[i..])
    decreases |order| - i
  {
    hide Ready, Elements, Topological;
    if i < |order| {
      NextIsReady(m, other, i);
      assert Order.TextLeq(order[i], other[i]);
      if order[i] == other[i] {
        assert order[..i + 1] == order[..i] + [order[i]] && other[..i + 1] == other[..i] + [other[i]];
        GreedyIsLeast(m, order, other, i + 1);
        assert order[i..][1..] == order[i + 1..] && other[i..][1..] == other[i + 1..];
      }
    }
  }

  lemma {:induction false} GreedyIsLeastOrder(m: Index, order: seq<string>)
    requires Greedy(m, order) && Elements(order) == m.Keys
    ensures LeastOrder(m, order)
  {
    GreedyIsTopological(m, order);
    hide Greedy, Topological, Elements;
    forall other | Topological(m, other)
      ensures Order.KeyLeq(order, other)
    {
      SameLength(m, order, other);
      assert order[0..] == order && other[0..] == other && order[..0] == other[..0];
      GreedyIsLeast(m, order, other, 0);
    }
  }

  lemma {:induction false} SameLength(m: Index, a: seq<string>, b: seq<string>)
    requires Topological(m, a) && Topological(m, b)
    ensures |a| == |b| == |m|
  {
    DistinctCount(a);
    DistinctCount(b);
    assert |m| == |m.Keys|;
  }

  /** There is only one least order. */
  lemma {:induction false} LeastOrderIsUnique(m: Index, a: seq<string>, b: seq<string>)
    requires LeastOrder(m, a) && LeastOrder(m, b)
    ensures a == b
  {
    hide Topological;
    Order.KeyTotal(a, b);
  }

  function Position(order: seq<string>, k: string): (i: nat)
    requires k in order
    ensures i < |order| && order[i] == k
  {
    if order[0] == k then 0 else 1 + Position(order[1..], k)
  }

  /** A producer-first order exists only for closed acyclic bundles. */
  lemma {:induction false} OrderedIsAcyclic(m: Index, order: seq<string>)
    requires Topological(m, order)
    ensures Closed(m) && Acyclic(Needs(m))
  {
    var rank := map k | k in m :: Position(order, k);
    forall x, y {:trigger y in Succ(Needs(m), x)} | y in Succ(Needs(m), x)
      ensures x in rank && y in rank && rank[y] < rank[x]
    {
      var i := Position(order, x);
      assert order[i] == x && y in Elements(order[..i]);
      var j :| 0 <= j < i && order[..i][j] == y;
      PositionIs(order, y, j);
    }
    forall k | k in m
      ensures Producers(m[k]) <= m.Keys
    {
      var i := Position(order, k);
      assert order[i] == k;
      assert Elements(order[..i]) <= Elements(order);
    }
    RankIsAcyclic(Needs(m), rank);
  }

  lemma {:induction false} PositionIs(order: seq<string>, k: string, j: nat)
    requires forall a, b :: 0 <= a < b < |order| ==> order[a] != order[b]
    requires j < |order| && order[j] == k
    ensures k in order && Position(order, k) == j
  {
    var i := Position(order, k);
    assert !(i < j) && !(j < i);
  }

  /** Keys remain but none is ready: some producer is missing, or there is a cycle. */
  lemma {:induction false} StuckIsCyclic(m: Index, done: set<string>)
    requires done < m.Keys && forall k :: !Ready(m, done, k)
    ensures !(Closed(m) && Acyclic(Needs(m)))
  {
    if Closed(m) {
      var rest := m.Keys - done;
      forall x {:trigger HasSuccessor(Needs(m), rest, x)} | x in rest
        ensures HasSuccessor(Needs(m), rest, x)
      {
        assert !Ready(m, done, x) && Producers(m[x]) <= m.Keys;
        var y :| y in Producers(m[x]) && y !in done;
        assert y in rest && y in Succ(Needs(m), x);
      }
      var z :| z in m.Keys && z !in done;
      assert z in rest;
      NoSinkHasCycle(Needs(m), rest);
    }
  }

  // ---------------------------------------------------------------- edges

  function EdgeAt(doc: Document, i: nat): PlanEdge
    requires i < |doc.product.inputs|
  {
    var input := doc.product.inputs[i];
    PlanEdge(KeyOf(doc), Producer(doc.product, input), input.name, i, input.ref.output, doc.origin)
  }

  function EdgesOf(doc: Document, n: nat): seq<PlanEdge>
    requires n <= |doc.product.inputs|
  {
    if n == 0 then [] else EdgesOf(doc, n - 1) + [EdgeAt(doc, n - 1)]
  }

  /** Every declared input, in the order of the documents. */
  function DeclaredEdges(docs: seq<Document>): seq<PlanEdge>
  {
    if docs == [] then []
    else
      var last := docs[|docs| - 1];
      DeclaredEdges(docs[..|docs| - 1]) + EdgesOf(last, |last.product.inputs|)
  }

  function EdgeKey(e: PlanEdge): seq<string>
  {
    [e.consumer, e.input, e.producer, e.output]
  }

  // ---------------------------------------------------------------- the plan

  function OrderKeys(order: seq<PlanProduct>): (keys: seq<string>)
    ensures |keys| == |order| && forall i :: 0 <= i < |keys| ==> keys[i] == order[i].key
  {
    seq(|order|, i requires 0 <= i < |order| => order[i].key)
  }

  /** What a plan of the bundle is, independently of how it is found. */
  ghost predicate IsPlan(docs: seq<Document>, plan: ReviewPlan)
  {
    var m := ByKey(docs);
    && LeastOrder(m, OrderKeys(plan.order))
    && (forall entry :: entry in plan.order ==> entry.key in m && entry.origin == m[entry.key].origin)
    && multiset(plan.edges) == multiset(DeclaredEdges(docs))
    && Order.SortedBy(plan.edges, EdgeKey)
  }

  method LeastOf(ready: set<string>) returns (least: string)
    requires ready != {}
    ensures least in ready && forall k :: k in ready ==> Order.TextLeq(least, k)
  {
    least :| least in ready;
    var rest := ready - {least};
    Order.TextTotal(least, least);
    while rest != {}
      invariant rest <= ready && least in ready
      invariant forall k :: k in ready - rest ==> Order.TextLeq(least, k)
      decreases |rest|
    {
      var k :| k in rest;
      rest := rest - {k};
      Order.TextTotal(least, k);
      Order.TextTotal(k, k);
      if !Order.TextLeq(least, k) {
        forall x | x in ready - rest
          ensures Order.TextLeq(k, x)
        {
          if x != k {
            Order.TextTransitive(k, least, x);
          }
        }
        least := k;
      }
    }
  }

  /** The inner loop: what one document needs, and its edges. */
  method CollectInputs(doc: Document) returns (required: set<string>, edges: seq<PlanEdge>)
    ensures required == Producers(doc) && edges == EdgesOf(doc, |doc.product.inputs|)
  {
    hide Producer;
    required, edges := {}, [];
    for index := 0 to |doc.product.inputs|
      invariant required == set i | 0 <= i < index :: Producer(doc.product, doc.product.inputs[i])
      invariant edges == EdgesOf(doc, index)
    {
      required := required + {Producer(doc.product, doc.product.inputs[index])};
      edges := edges + [EdgeAt(doc, index)];
    }
  }

  lemma {:induction false} OneMoreDocument(docs: seq<Document>, n: nat)
    requires n < |docs|
    ensures ByKey(docs[..n + 1]) == ByKey(docs[..n])[KeyOf(docs[n]) := docs[n]]
    ensures DeclaredEdges(docs[..n + 1]) == DeclaredEdges(docs[..n]) + EdgesOf(docs[n], |docs[n].product.inputs|)
  {
    hide EdgesOf, KeyOf;
    var more := docs[..n + 1];
    assert more[..|more| - 1] == docs[..n] && more[|more| - 1] == docs[n];
  }

  lemma {:induction false} NeedsAdd(m: Index, key: string, doc: Document)
    ensures Needs(m[key := doc]) == Needs(m)[key := Producers(doc)]
  {
    hide Producers;
  }

  lemma {:induction false} NothingYet(docs: seq<Document>)
    ensures ByKey(docs[..0]) == map[] && DeclaredEdges(docs[..0]) == [] && Needs(map[]) == map[]
    ensures docs[..|docs|] == docs
  {
  }

  /** The loop that collects documents, needs and edges. */
  method Collect(docs: seq<Document>)
    returns (byKey: Index, needs: map<string, set<string>>, edges: seq<PlanEdge>)
    ensures byKey == ByKey(docs) && needs == Needs(byKey) && edges == DeclaredEdges(docs)
  {
    hide *;
    byKey, needs, edges := map[], map[], [];
    NothingYet(docs);
    for number := 0 to |docs|
      invariant byKey == ByKey(docs[..number]) && needs == Needs(byKey) && edges == DeclaredEdges(docs[..number])
    {
      var doc := docs[number];
      var key := KeyOf(doc);
      var required, more := CollectInputs(doc);
      OneMoreDocument(docs, number);
      NeedsAdd(byKey, key, doc);
      edges := edges + more;
      byKey := byKey[key := doc];
      needs := needs[key := required];
    }
  }

  /** What is left to order: the keys not done, each with its producers not done. */
  ghost predicate Left(m: Index, done: seq<string>, needs: map<string, set<string>>)
  {
    && needs.Keys == m.Keys - Elements(done)
    && forall k {:trigger needs[k]} :: k in needs ==> needs[k] == Producers(m[k]) - Elements(done)
  }

  lemma {:induction false} EmptyDifference(a: set<string>, b: set<string>)
    ensures a - b == {} <==> a <= b
  {
    if a - b == {} {
      assert forall x :: x in a && x !in b ==> x in a - b;
    }
  }

  lemma {:induction false} LeftReady(m: Index, done: seq<string>, needs: map<string, set<string>>, ready: set<string>)
    requires Left(m, done, needs) && ready == set k | k in needs && needs[k] == {}
    ensures forall k :: k in ready <==> Ready(m, Elements(done), k)
    ensures needs.Keys <= m.Keys && ready <= needs.Keys
  {
    hide Elements, Producers;
    forall k
      ensures k in ready <==> Ready(m, Elements(done), k)
    {
      if k in needs {
        assert needs[k] == Producers(m[k]) - Elements(done);
        EmptyDifference(Producers(m[k]), Elements(done));
      }
    }
  }

  lemma {:induction false} LeftShrinks(m: Index, done: seq<string>, needs: map<string, set<string>>, key: string)
    requires Left(m, done, needs) && key in needs
    ensures Left(m, done + [key], map k | k in needs && k != key :: needs[k] - {key})
  {
    hide Producers;
    assert Elements(done + [key]) == Elements(done) + {key};
  }

  /**
   A plan exists exactly when every named producer is in the bundle and nothing depends on itself. Its order is
   then the lexicographically least producer-first order, whatever order the maps are iterated in.
   */
  method ReviewOf(docs: seq<Document>) returns (plan: Option<ReviewPlan>)
    ensures plan.Some? <==> Closed(ByKey(docs)) && Acyclic(Needs(ByKey(docs)))
    ensures plan.Some? ==> IsPlan(docs, plan.value)
  {
    hide *;
    var byKey, needs, edges := Collect(docs);
    ghost var m := ByKey(docs);
    var order: seq<PlanProduct> := [];
    StartLeft(m);
    while |needs| > 0
      invariant Left(m, OrderKeys(order), needs) && Greedy(m, OrderKeys(order))
      invariant forall entry :: entry in order ==> entry.key in m && entry.origin == m[entry.key].origin
      decreases |needs|
    {
      var ready := set k | k in needs && needs[k] == {};
      LeftReady(m, OrderKeys(order), needs, ready);
      if ready == {} {
        SomeLeft(m, OrderKeys(order), needs);
        StuckIsCyclic(m, Elements(OrderKeys(order)));
        return None;
      }
      var key := LeastOf(ready);
      var doc := byKey[key];
      LeftShrinks(m, OrderKeys(order), needs, key);
      GreedyGrows(m, OrderKeys(order), key);
      OrderGrows(order, PlanProduct(key, doc.origin));
      ghost var before := needs;
      order := order + [PlanProduct(key, doc.origin)];
      needs := map k | k in needs && k != key :: needs[k] - {key};
      Fewer(before, needs, key);
    }
    AllOrdered(m, OrderKeys(order), needs);
    GreedyIsLeastOrder(m, OrderKeys(order));
    GreedyIsTopological(m, OrderKeys(order));
    OrderedIsAcyclic(m, OrderKeys(order));
    Order.SortSorts(edges, EdgeKey);
    plan := Some(ReviewPlan(order, Order.Sort(edges, EdgeKey)));
    PlanIs(docs, plan.value);
  }

  lemma {:induction false} StartLeft(m: Index)
    ensures Left(m, OrderKeys([]), Needs(m)) && Greedy(m, OrderKeys([]))
  {
    hide Producers;
    assert Elements(OrderKeys([])) == {};
  }

  lemma {:induction false} SomeLeft(m: Index, done: seq<string>, needs: map<string, set<string>>)
    requires Left(m, done, needs) && Greedy(m, done) && |needs| > 0
    ensures Elements(done) < m.Keys
  {
    GreedyDistinct(m, done);
    hide Elements, Producers, Greedy;
    assert |needs.Keys| == |needs|;
    var k :| k in needs.Keys;
    assert k in m.Keys && k !in Elements(done);
  }

  lemma {:induction false} AllOrdered(m: Index, done: seq<string>, needs: map<string, set<string>>)
    requires Left(m, done, needs) && Greedy(m, done) && |needs| == 0
    ensures Elements(done) == m.Keys
  {
    GreedyDistinct(m, done);
    hide Elements, Producers, Greedy;
    assert |needs.Keys| == |needs|;
    assert needs.Keys == {};
  }

  lemma {:induction false} OrderGrows(order: seq<PlanProduct>, entry: PlanProduct)
    ensures OrderKeys(order + [entry]) == OrderKeys(order) + [entry.key]
  {
  }

  lemma {:induction false} Fewer(a: map<string, set<string>>, b: map<string, set<string>>, key: string)
    requires key in a && b.Keys == a.Keys - {key}
    ensures |b| < |a|
  {
    assert |b.Keys| == |b| && |a.Keys| == |a|;
  }

  lemma {:induction false} PlanIs(docs: seq<Document>, plan: ReviewPlan)
    requires LeastOrder(ByKey(docs), OrderKeys(plan.order))
    requires forall entry :: entry in plan.order ==>
               entry.key in ByKey(docs) && entry.origin == ByKey(docs)[entry.key].origin
    requires multiset(plan.edges) == multiset(DeclaredEdges(docs)) && Order.SortedBy(plan.edges, EdgeKey)
    ensures IsPlan(docs, plan)
  {
    hide LeastOrder, DeclaredEdges, ByKey, Order.SortedBy;
  }
}
