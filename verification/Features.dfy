/** The feature lists of an offline report: the sorted union, and the reader's check of it. */
module Features {
  import opened Digraph
  import Order

  const MAX_LISTED := 8
  const MAX_PRODUCTS := 256

  const PROVISIONED_SOURCES := "provisioned-sources"
  const ENGINE_PROVIDERS := "engine-providers"
  const CONNECTOR_READINESS := "connector-readiness"
  const COMPOSITION := "composition"
  const CONTRACT_READINESS := "contract-readiness"
  const UI_CONTRACT := "ui-contract"
  const UI_APPEARANCE := "ui-appearance"
  const DCAT_CATALOG := "dcat-catalog"

  const KnownList := [
    PROVISIONED_SOURCES, ENGINE_PROVIDERS, CONNECTOR_READINESS, COMPOSITION, CONTRACT_READINESS, UI_CONTRACT,
    UI_APPEARANCE, DCAT_CATALOG]

  const Known: set<string> := set f | f in KnownList

  ghost function Elements(list: seq<string>): set<string>
  {
    set f | f in list
  }

  ghost function Union(lists: seq<seq<string>>): set<string>
  {
    if lists == [] then {} else Union(lists[..|lists| - 1]) + Elements(lists[|lists| - 1])
  }

  predicate Before(a: string, b: string)
  {
    a != b && Order.TextLeq(a, b)
  }

  /** Strictly increasing text, hence without repetition. */
  ghost predicate Increasing(list: seq<string>)
  {
    forall i, j :: 0 <= i < j < |list| ==> Before(list[i], list[j])
  }

  lemma {:induction false} SortedIsIncreasing(list: seq<string>)
    requires Order.SortedBy(list, Order.Self) && forall i, j :: 0 <= i < j < |list| ==> list[i] != list[j]
    ensures Increasing(list)
  {
    forall i, j | 0 <= i < j < |list|
      ensures Before(list[i], list[j])
    {
      assert Order.KeyLeq(Order.Self(list[i]), Order.Self(list[j]));
      OneField(list[i], list[j]);
    }
  }

  lemma {:induction false} OneField(a: string, b: string)
    requires Order.KeyLeq([a], [b]) && a != b
    ensures Order.TextLeq(a, b)
  {
  }

  /** The report's own list: every feature of every product once, in increasing order. */
  method RequiredFeatures(products: seq<seq<string>>) returns (required: seq<string>)
    ensures Elements(required) == Union(products) && Increasing(required)
  {
    var union: set<string> := {};
    for next := 0 to |products|
      invariant union == Union(products[..next])
    {
      assert products[..next + 1][..next] == products[..next];
      union := union + set f | f in products[next];
    }
    assert products[..|products|] == products;
    required := Listed(union);
  }

  /** A set of features as a list in increasing order. */
  method Listed(union: set<string>) returns (list: seq<string>)
    ensures Elements(list) == union && Increasing(list)
  {
    var rest := union;
    list := [];
    while rest != {}
      invariant rest <= union && Elements(list) == union - rest
      invariant forall i, j :: 0 <= i < j < |list| ==> list[i] != list[j]
      decreases |rest|
    {
      var f :| f in rest;
      assert f !in Elements(list);
      assert forall i :: 0 <= i < |list| ==> list[i] in list;
      assert Elements(list + [f]) == Elements(list) + {f};
      list := list + [f];
      rest := rest - {f};
    }
    var sorted := Order.Sort(list, Order.Self);
    Order.SortSorts(list, Order.Self);
    Rearranged(list, sorted);
    SortedIsIncreasing(sorted);
    list := sorted;
  }

  lemma {:induction false} Rearranged(a: seq<string>, b: seq<string>)
    requires multiset(a) == multiset(b) && forall i, j :: 0 <= i < j < |a| ==> a[i] != a[j]
    ensures Elements(a) == Elements(b) && forall i, j :: 0 <= i < j < |b| ==> b[i] != b[j]
  {
    forall f
      ensures f in a <==> f in b
    {
      Order.PermutationMember(a, b, f);
    }
    var same := (f: string) => f;
    Order.PermutationDistinct(a, b, same);
    forall i, j | 0 <= i < j < |b|
      ensures b[i] != b[j]
    {
      assert same(b[i]) != same(b[j]);
    }
  }

  // ---------------------------------------------------------------- the reader

  ghost predicate ListSound(list: seq<string>)
  {
    |list| <= MAX_LISTED && Increasing(list) && Elements(list) <= Known
  }

  /** The lists are sound, and the report's own is exactly their union. */
  ghost predicate FeaturesSound(required: seq<string>, products: seq<seq<string>>)
  {
    && ListSound(required) && |products| <= MAX_PRODUCTS && (forall i :: 0 <= i < |products| ==> ListSound(products[i]))
    && Elements(required) == Union(products)
  }

  /** Compares neighbours only. */
  method ValidList(list: seq<string>) returns (ok: bool)
    ensures ok <==> ListSound(list)
  {
    if |list| > MAX_LISTED {
      return false;
    }
    for next := 0 to |list|
      invariant Increasing(list[..next]) && Elements(list[..next]) <= Known
    {
      var f := list[next];
      if f !in Known || (next > 0 && !Before(list[next - 1], f)) || f == "" {
        assert f in list && "" !in Known;
        return false;
      }
      NeighboursSuffice(list, next);
      assert list[..next + 1] == list[..next] + [f];
    }
    assert list[..|list|] == list;
    ok := true;
  }

  lemma {:induction false} NeighboursSuffice(list: seq<string>, n: nat)
    requires n < |list| && Increasing(list[..n]) && (n > 0 ==> Before(list[n - 1], list[n]))
    ensures Increasing(list[..n + 1])
  {
    hide Order.TextLeq;
    var before, more := list[..n], list[..n + 1];
    forall i, j | 0 <= i < j < |more|
      ensures Before(more[i], more[j])
    {
      if j < n {
        assert more[i] == before[i] && more[j] == before[j];
      } else if i < n - 1 {
        assert Before(before[i], before[n - 1]);
        Order.TextTransitive(list[i], list[n - 1], list[n]);
        Order.TextTotal(list[i], list[n - 1]);
        Order.TextTotal(list[n - 1], list[n]);
      }
    }
  }

  /** The feature section of the report check: as many features as the union, each of them in it. */
  method ValidFeatures(required: seq<string>, products: seq<seq<string>>) returns (ok: bool)
    ensures ok <==> FeaturesSound(required, products)
  {
    hide Increasing;
    ok := ValidList(required);
    if !ok || |products| > MAX_PRODUCTS {
      return false;
    }
    var union: set<string> := {};
    for next := 0 to |products|
      invariant union == Union(products[..next])
      invariant forall i :: 0 <= i < next ==> ListSound(products[i])
    {
      var valid := ValidList(products[next]);
      if !valid {
        return false;
      }
      assert products[..next + 1][..next] == products[..next];
      union := union + set f | f in products[next];
    }
    assert products[..|products|] == products;
    IncreasingCount(required);
    ok := |union| == |required| && forall f :: f in required ==> f in union;
    if ok {
      assert Elements(required) <= union;
      SameSize(Elements(required), union);
    }
  }

  lemma {:induction false} IncreasingCount(list: seq<string>)
    requires Increasing(list)
    ensures |Elements(list)| == |list|
  {
    DistinctCount(list);
  }

  lemma {:induction false} UnionKnown(lists: seq<seq<string>>)
    requires forall i :: 0 <= i < |lists| ==> Elements(lists[i]) <= Known
    ensures Union(lists) <= Known
    decreases |lists|
  {
    if lists != [] {
      UnionKnown(lists[..|lists| - 1]);
    }
  }

  lemma {:induction false} AtMostLength(list: seq<string>)
    ensures |Elements(list)| <= |list|
    decreases |list|
  {
    if list == [] {
      assert Elements(list) == {};
    } else {
      var front := list[..|list| - 1];
      AtMostLength(front);
      assert Elements(list) == Elements(front) + {list[|list| - 1]};
    }
  }

  /** The union of sound product lists is a list the reader accepts. */
  lemma {:induction false} UnionIsSound(required: seq<string>, products: seq<seq<string>>)
    requires |products| <= MAX_PRODUCTS && forall i :: 0 <= i < |products| ==> ListSound(products[i])
    requires Elements(required) == Union(products) && Increasing(required)
    ensures FeaturesSound(required, products)
  {
    hide Increasing;
    UnionKnown(products);
    KnownListSound(required);
  }

  /** An increasing list of known features has at most as many as there are. */
  lemma {:induction false} KnownListSound(list: seq<string>)
    requires Increasing(list) && Elements(list) <= Known
    ensures ListSound(list)
  {
    hide Increasing;
    IncreasingCount(list);
    SubsetCount(Elements(list), Known);
    AtMostLength(KnownList);
    assert Known == Elements(KnownList) && |KnownList| == MAX_LISTED;
  }
}
