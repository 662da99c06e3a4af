/** A bundle that checks out offline is accepted by the controller wherever it is deployed. */
module Deployment {
  import opened Products
  import opened Compatibility
  import opened Digraph
  import opened Bundle
  import opened Preflight
  import Witness
  import Composition
  import CompositionTheorems
  import Sums

  const MAX_DOCUMENTS := 256

  /** What reading and the identity checks guarantee of the documents whose graph is checked. */
  ghost predicate Admitted(docs: seq<Document>)
  {
    && 1 <= |docs| <= MAX_DOCUMENTS && Distinguished(docs)
    && forall d {:trigger d.product} :: d in docs ==>
         && '/' !in d.product.key.ns && Ascii(d.product.key.ns) && |d.product.key.ns| <= 63
         && Ascii(d.product.key.name) && |d.product.key.name| <= 253
  }

  ghost predicate SameDeclaration(a: Product, b: Product)
  {
    a.key == b.key && a.inputs == b.inputs && a.outputs == b.outputs && a.version == b.version
  }

  /** The store holds every declaration of the bundle, with any status, among any other products. */
  ghost predicate Deployed(docs: seq<Document>, s: Store)
  {
    forall d {:trigger d.product} :: d in docs ==> d.product.key in s && SameDeclaration(d.product, s[d.product.key])
  }

  /** Without a slash in either namespace, the text of a key determines it. */
  lemma {:induction false} TextInjective(a: Key, b: Key)
    requires '/' !in a.ns && '/' !in b.ns && Text(a) == Text(b)
    ensures a == b
  {
    var t := Text(a);
    assert t[|a.ns|] == '/' && t[|b.ns|] == '/';
    assert forall i {:trigger t[i]} :: (0 <= i < |a.ns| ==> t[i] == a.ns[i]) && (0 <= i < |b.ns| ==> t[i] == b.ns[i]);
    assert |a.ns| == |b.ns|;
    assert a.ns == t[..|a.ns|] == b.ns;
    assert a.name == t[|a.ns| + 1..] == b.name;
  }

  ghost function Keys(docs: seq<Document>): set<Key>
  {
    set d | d in docs :: d.product.key
  }

  lemma {:induction false} DocumentOf(docs: seq<Document>, k: Key) returns (d: Document)
    requires k in Keys(docs)
    ensures d in docs && d.product.key == k
  {
    d :| d in docs && d.product.key == k;
  }

  /** In a complete bundle the producer of an input is one of its documents, and matches. */
  lemma {:induction false} ProducerDeployed(docs: seq<Document>, s: Store, d: Document, input: Input)
    requires Admitted(docs) && BundleComplete(docs) && Deployed(docs, s)
    requires d in docs && input in d.product.inputs
    ensures Target(d.product.key, input) in Keys(docs)
    ensures Composition.Matches(s, d.product.key, input)
    ensures Text(Target(d.product.key, input)) in Succ(Links(ByKey(docs)), Text(d.product.key))
  {
    var m := ByKey(docs);
    var t := Target(d.product.key, input);
    InputSound(docs, d, input);
    KeyedMember(docs, d);
    hide BundleComplete, Target, InputCompatibility;
    var other := m[Text(t)];
    assert other in docs && Text(other.product.key) == Text(t);
    TextInjective(other.product.key, t);
    SameCompatibility(input, other.product, s[t]);
    var i :| 0 <= i < |d.product.inputs| && d.product.inputs[i] == input;
    assert Producer(d.product, d.product.inputs[i]) == Text(t);
    assert KeyOf(d) == Text(d.product.key);
  }

  lemma {:induction false} InputSound(docs: seq<Document>, d: Document, input: Input)
    requires BundleComplete(docs) && d in docs && input in d.product.inputs
    ensures Target(d.product.key, input).ns == d.product.key.ns
    ensures Text(Target(d.product.key, input)) in ByKey(docs)
    ensures InputCompatibility(input, ByKey(docs)[Text(Target(d.product.key, input))].product) == NoReason
  {
    hide Target, InputCompatibility, ByKey, Witness.Bounded;
    assert Producer(d.product, input) in ByKey(docs);
    assert Declarable(ByKey(docs), d.product, input);
  }

  lemma {:induction false} SameCompatibility(input: Input, a: Product, b: Product)
    requires SameDeclaration(a, b)
    ensures InputCompatibility(input, a) == InputCompatibility(input, b)
  {
  }

  lemma {:induction false} DeployedStep(docs: seq<Document>, s: Store, k: Key, y: Key)
    requires Admitted(docs) && BundleComplete(docs) && Deployed(docs, s) && WellKeyed(s)
    requires k in Keys(docs) && y in Succ(Adjacency(s), k)
    ensures y in Keys(docs) && Text(y) in Succ(Links(ByKey(docs)), Text(k))
  {
    var d := DocumentOf(docs, k);
    assert SameDeclaration(d.product, s[k]) && s[k].key == k;
    hide Admitted, BundleComplete, Deployed, Keys, Links, Target, ByKey, Text;
    CompositionTheorems.EdgeIsInput(s, k, y);
    var i :| 0 <= i < |s[k].inputs| && y == Target(s[k].key, s[k].inputs[i]);
    assert d.product.inputs[i] in d.product.inputs;
    ProducerDeployed(docs, s, d, d.product.inputs[i]);
  }

  /** Chains of the deployed bundle stay inside it and are chains of the bundle. */
  lemma {:induction false} DeployedChain(docs: seq<Document>, s: Store, k: Key, x: Key, n: nat)
    requires Admitted(docs) && BundleComplete(docs) && Deployed(docs, s) && WellKeyed(s)
    requires k in Keys(docs) && Walk(Adjacency(s), k, x, n)
    ensures x in Keys(docs) && Walk(Links(ByKey(docs)), Text(k), Text(x), n)
    decreases n
  {
    hide Admitted, BundleComplete, Deployed, WellKeyed, Keys, Links, ByKey, Text, Adjacency, Succ;
    if n > 0 {
      var y :| y in Succ(Adjacency(s), k) && Walk(Adjacency(s), y, x, n - 1);
      DeployedStep(docs, s, k, y);
      DeployedChain(docs, s, y, x, n - 1);
    }
  }

  lemma {:induction false} KeysCount(docs: seq<Document>)
    ensures |Keys(docs)| <= |docs|
    decreases |docs|
  {
    if docs == [] {
      assert Keys(docs) == {};
    } else {
      var front := docs[..|docs| - 1];
      KeysSplit(docs);
      KeysCount(front);
    }
  }

  lemma {:induction false} KeysSplit(docs: seq<Document>)
    requires docs != []
    ensures Keys(docs) == Keys(docs[..|docs| - 1]) + {docs[|docs| - 1].product.key}
  {
    var last := docs[|docs| - 1];
    assert docs == docs[..|docs| - 1] + [last];
    forall k | k in Keys(docs)
      ensures k in Keys(docs[..|docs| - 1]) + {last.product.key}
    {
      var d := DocumentOf(docs, k);
      assert d in docs[..|docs| - 1] || d == last;
    }
  }

  lemma {:induction false} InputsCount(docs: seq<Document>, s: Store)
    requires Deployed(docs, s)
    ensures Keys(docs) <= Weights(s).Keys
    ensures Sums.Total(Weights(s), Keys(docs)) <= TotalInputs(docs)
    decreases |docs|
  {
    hide SameDeclaration;
    forall k | k in Keys(docs)
      ensures k in s
    {
      var d := DocumentOf(docs, k);
    }
    if docs == [] {
      assert Keys(docs) == {};
    } else {
      var front, last := docs[..|docs| - 1], docs[|docs| - 1];
      assert forall d :: d in front ==> d in docs;
      assert last in docs;
      KeysSplit(docs);
      InputsCount(front, s);
      assert |s[last.product.key].inputs| == |last.product.inputs| by {
        LastWeight(docs, s);
      }
      hide Keys, Deployed;
      if last.product.key in Keys(front) {
        assert Keys(docs) == Keys(front);
      } else {
        Sums.Add(Weights(s), Keys(front), last.product.key);
      }
    }
  }

  lemma {:induction false} LastWeight(docs: seq<Document>, s: Store)
    requires Deployed(docs, s) && docs != []
    ensures var last := docs[|docs| - 1];
            last.product.key in s && |s[last.product.key].inputs| == |last.product.inputs|
  {
    assert docs[|docs| - 1] in docs;
    assert docs[|docs| - 1].product == docs[|docs| - 1].product;
  }

  lemma {:induction false} DeployedFits(docs: seq<Document>, s: Store, root: Key)
    requires Admitted(docs) && BundleComplete(docs) && Deployed(docs, s)
    requires Composition.ReachSet(s, root) <= Keys(docs)
    ensures |Composition.ReachSet(s, root)| <= Composition.MAX_PRODUCTS
    ensures Composition.ReachSet(s, root) <= Weights(s).Keys
    ensures Sums.Total(Weights(s), Composition.ReachSet(s, root)) <= Composition.MAX_EDGES
  {
    assert |docs| <= MAX_DOCUMENTS && TotalInputs(docs) <= MAX_INPUTS;
    hide Admitted, BundleComplete, Deployed, Keys, Composition.ReachSet;
    KeysCount(docs);
    SubsetCount(Composition.ReachSet(s, root), Keys(docs));
    InputsCount(docs, s);
    Sums.Grows(Weights(s), Composition.ReachSet(s, root), Keys(docs));
  }

  lemma {:induction false} ChainsBounded(docs: seq<Document>, a: string, b: string, n: nat)
    requires BundleComplete(docs) && Walk(Links(ByKey(docs)), a, b, n)
    ensures n < Composition.MAX_DEPTH
  {
    hide Links, ByKey, AllDeclarable, AllPresent;
  }

  /** Every product of a complete bundle is acceptable in every store the bundle is deployed to. */
  lemma {:induction false} DeployedIsAcceptable(docs: seq<Document>, s: Store, root: Key)
    requires Admitted(docs) && BundleComplete(docs) && Deployed(docs, s) && WellKeyed(s) && root in Keys(docs)
    ensures Composition.Acceptable(s, root)
  {
    hide *;
    forall k | Composition.Reachable(s, root, k)
      ensures k in Keys(docs) && k in s && Composition.InputsMatch(s, s[k])
    {
      ReachedMatches(docs, s, root, k);
    }
    forall k, n: nat | Walk(Adjacency(s), root, k, n)
      ensures n < Composition.MAX_DEPTH
    {
      DeployedChain(docs, s, root, k, n);
      ChainsBounded(docs, Text(root), Text(k), n);
    }
    RootDeployed(docs, s, root);
    ReachedKeys(docs, s, root);
    DeployedFits(docs, s, root);
    AcceptableIs(s, root);
  }

  lemma {:induction false} RootDeployed(docs: seq<Document>, s: Store, root: Key)
    requires Deployed(docs, s) && root in Keys(docs)
    ensures root in s
  {
  }

  lemma {:induction false} ReachedKeys(docs: seq<Document>, s: Store, root: Key)
    requires root in s && forall k :: Composition.Reachable(s, root, k) ==> k in Keys(docs) && k in s
    ensures Composition.ReachSet(s, root) <= Keys(docs)
  {
    hide Keys;
  }

  lemma {:induction false} AcceptableIs(s: Store, root: Key)
    requires root in s && |Composition.ReachSet(s, root)| <= Composition.MAX_PRODUCTS
    requires forall k :: Composition.Reachable(s, root, k) ==> k in s && Composition.InputsMatch(s, s[k])
    requires Composition.ReachSet(s, root) <= Weights(s).Keys
    requires Sums.Total(Weights(s), Composition.ReachSet(s, root)) <= Composition.MAX_EDGES
    requires forall k, n: nat :: Walk(Adjacency(s), root, k, n) ==> n < Composition.MAX_DEPTH
    ensures Composition.Acceptable(s, root)
  {
    hide Composition.Reachable, Composition.InputsMatch, Composition.ReachSet;
  }

  lemma {:induction false} ReachedMatches(docs: seq<Document>, s: Store, root: Key, k: Key)
    requires Admitted(docs) && BundleComplete(docs) && Deployed(docs, s) && WellKeyed(s) && root in Keys(docs)
    requires Composition.Reachable(s, root, k)
    ensures k in Keys(docs) && k in s && Composition.InputsMatch(s, s[k])
  {
    var n: nat :| Walk(Adjacency(s), root, k, n);
    DeployedChain(docs, s, root, k, n);
    var d := DocumentOf(docs, k);
    assert SameDeclaration(d.product, s[k]) && s[k].key == k;
    hide Admitted, BundleComplete, Deployed, Keys, Composition.Reachable, Composition.Matches;
    forall i | 0 <= i < |s[k].inputs|
      ensures Composition.Matches(s, s[k].key, s[k].inputs[i])
    {
      ProducerDeployed(docs, s, d, d.product.inputs[i]);
    }
  }

  /**
   The offline verdict carries over: when the graph check finds nothing in an admitted bundle, the controller's
   search accepts every product of it, in every store that holds the bundle.
   */
  lemma {:induction false} OfflineVerdictHolds(docs: seq<Document>, s: Store, d: Document)
    requires Admitted(docs) && BundleComplete(docs) && Deployed(docs, s) && WellKeyed(s) && d in docs
    ensures d.product.key in s
    ensures CompositionTheorems.Check(Composition.Reader(s, {}, None, []), s[d.product.key]).1 == NoReason
  {
    assert d.product.key in Keys(docs);
    DeployedIsAcceptable(docs, s, d.product.key);
    hide Admitted, BundleComplete, Deployed, Keys, CompositionTheorems.Check, Composition.Acceptable;
    CompositionTheorems.AcceptableIsAccepted(Composition.Reader(s, {}, None, []), s[d.product.key]);
  }
}
