/** The structural check of an offline bundle, and what it decides. */
module Preflight {
  import opened Products
  import opened Compatibility
  import opened Digraph
  import opened Bundle
  import opened Witness
  import opened Findings

  const MAX_INPUTS := 1024

  function TotalInputs(docs: seq<Document>): nat
  {
    if docs == [] then 0 else TotalInputs(docs[..|docs| - 1]) + |docs[|docs| - 1].product.inputs|
  }

  /** What is found at one input: nothing, or one finding. */
  function InputFinding(m: Index, number: nat, p: Product, i: nat): seq<Finding>
    requires i < |p.inputs|
  {
    var input := p.inputs[i];
    if Target(p.key, input).ns != p.key.ns then
      [Finding(number, Error, "CrossNamespaceInput", ProductRefOf(i), [], false)]
    else if Producer(p, input) !in m then
      [Finding(number, Warning, "ProducerUnresolved", ProductRefOf(i), [], false)]
    else
      match InputCompatibility(input, m[Producer(p, input)].product)
      case NoReason => []
      case OutputNotFound => [Finding(number, Error, "OutputNotFound", OutputOf(i), [], false)]
      case _ => [Finding(number, Error, "ContractIncompatible", ContractOf(i), [], false)]
  }

  /** The findings at the first n inputs of a document. */
  function InputFindings(m: Index, number: nat, p: Product, n: nat): seq<Finding>
    requires n <= |p.inputs|
  {
    if n == 0 then [] else InputFindings(m, number, p, n - 1) + InputFinding(m, number, p, n - 1)
  }

  /** The findings at the first n documents. */
  function DocumentFindings(m: Index, docs: seq<Document>, n: nat): seq<Finding>
    requires n <= |docs|
  {
    if n == 0 then []
    else DocumentFindings(m, docs, n - 1)
         + InputFindings(m, n, docs[n - 1].product, |docs[n - 1].product.inputs|)
  }

  /** An input stays in its namespace and, if its producer is in the bundle, matches what it declares. */
  predicate Declarable(m: Index, p: Product, input: Input)
  {
    && Target(p.key, input).ns == p.key.ns
    && (Producer(p, input) in m ==> InputCompatibility(input, m[Producer(p, input)].product) == NoReason)
  }

  /** Findings at inputs, stated without reference to any traversal. */
  ghost predicate AllDeclarable(m: Index, docs: seq<Document>)
  {
    forall d, input {:trigger Declarable(m, d.product, input)} :: d in docs && input in d.product.inputs ==>
      Declarable(m, d.product, input)
  }

  ghost predicate AllPresent(m: Index, docs: seq<Document>)
  {
    forall d, input {:trigger Producer(d.product, input)} :: d in docs && input in d.product.inputs ==>
      Producer(d.product, input) in m
  }

  /** No error: inputs match what is present, and the budgets hold. */
  ghost predicate BundleValid(docs: seq<Document>)
  {
    TotalInputs(docs) <= MAX_INPUTS && AllDeclarable(ByKey(docs), docs) && Bounded(ByKey(docs))
  }

  /** No finding at all: every producer is present as well. */
  ghost predicate BundleComplete(docs: seq<Document>)
  {
    BundleValid(docs) && AllPresent(ByKey(docs), docs)
  }

  lemma {:induction false} FindingMeans(m: Index, number: nat, p: Product, i: nat)
    requires i < |p.inputs|
    ensures NoErrors(InputFinding(m, number, p, i)) <==> Declarable(m, p, p.inputs[i])
    ensures InputFinding(m, number, p, i) == [] <==> Declarable(m, p, p.inputs[i]) && Producer(p, p.inputs[i]) in m
  {
    hide Producer, InputCompatibility, Target;
    var found := InputFinding(m, number, p, i);
    if found != [] {
      assert found[0] in found;
    }
    if Producer(p, p.inputs[i]) in m {
      CompatibilityReasons(p.inputs[i], m[Producer(p, p.inputs[i])].product);
    }
  }

  lemma {:induction false} CompatibilityReasons(input: Input, p: Product)
    ensures InputCompatibility(input, p) in {NoReason, OutputNotFound, ContractIncompatible}
  {
  }

  lemma {:induction false} ErrorsJoin(a: seq<Finding>, b: seq<Finding>)
    ensures NoErrors(a + b) <==> NoErrors(a) && NoErrors(b)
  {
    if NoErrors(a + b) {
      forall f | f in a || f in b
        ensures f.severity != Error
      {
        assert f in a + b;
      }
    }
  }

  lemma {:induction false} InputFindingsMean(m: Index, number: nat, p: Product, n: nat)
    requires n <= |p.inputs|
    ensures NoErrors(InputFindings(m, number, p, n)) <==> forall i :: 0 <= i < n ==> Declarable(m, p, p.inputs[i])
    ensures InputFindings(m, number, p, n) == [] <==>
            forall i {:trigger p.inputs[i]} :: 0 <= i < n ==>
              Declarable(m, p, p.inputs[i]) && Producer(p, p.inputs[i]) in m
    decreases n
  {
    hide Declarable, Producer, InputFinding, NoErrors;
    if n > 0 {
      InputFindingsMean(m, number, p, n - 1);
      FindingMeans(m, number, p, n - 1);
      ErrorsJoin(InputFindings(m, number, p, n - 1), InputFinding(m, number, p, n - 1));
    } else {
      assert NoErrors([]) by {
        NothingIsNoError();
      }
    }
  }

  lemma {:induction false} NothingIsNoError()
    ensures NoErrors([])
  {
  }

  /** Every input of the product is declarable, and present. */
  ghost predicate ProductDeclarable(m: Index, p: Product)
  {
    forall i {:trigger p.inputs[i]} :: 0 <= i < |p.inputs| ==> Declarable(m, p, p.inputs[i])
  }

  ghost predicate ProductPresent(m: Index, p: Product)
  {
    forall i {:trigger p.inputs[i]} :: 0 <= i < |p.inputs| ==> Producer(p, p.inputs[i]) in m
  }

  lemma {:induction false} DocumentFindingsMean(m: Index, docs: seq<Document>, n: nat)
    requires n <= |docs|
    ensures NoErrors(DocumentFindings(m, docs, n)) <==>
            forall j {:trigger docs[j]} :: 0 <= j < n ==> ProductDeclarable(m, docs[j].product)
    ensures DocumentFindings(m, docs, n) == [] <==>
            forall j {:trigger docs[j]} :: 0 <= j < n ==>
              ProductDeclarable(m, docs[j].product) && ProductPresent(m, docs[j].product)
    decreases n
  {
    hide InputFindings, NoErrors, Declarable, Producer;
    if n > 0 {
      var p := docs[n - 1].product;
      DocumentFindingsMean(m, docs, n - 1);
      InputFindingsMean(m, n, p, |p.inputs|);
      ErrorsJoin(DocumentFindings(m, docs, n - 1), InputFindings(m, n, p, |p.inputs|));
      assert NoErrors(InputFindings(m, n, p, |p.inputs|)) <==> ProductDeclarable(m, p);
      assert InputFindings(m, n, p, |p.inputs|) == [] <==> ProductDeclarable(m, p) && ProductPresent(m, p);
      hide ProductDeclarable, ProductPresent;
    } else {
      NothingIsNoError();
    }
  }

  /** The traversal of all inputs finds an error, or anything at all, exactly when the bundle calls for it. */
  lemma {:induction false} AllFindingsMean(m: Index, docs: seq<Document>)
    ensures NoErrors(DocumentFindings(m, docs, |docs|)) <==> AllDeclarable(m, docs)
    ensures DocumentFindings(m, docs, |docs|) == [] <==> AllDeclarable(m, docs) && AllPresent(m, docs)
  {
    hide NoErrors, Declarable, Producer, DocumentFindings;
    DocumentFindingsMean(m, docs, |docs|);
    DeclarableEverywhere(m, docs);
    PresentEverywhere(m, docs);
  }

  lemma {:induction false} DeclarableEverywhere(m: Index, docs: seq<Document>)
    ensures AllDeclarable(m, docs) <==>
              forall j {:trigger docs[j]} :: 0 <= j < |docs| ==> ProductDeclarable(m, docs[j].product)
  {
    hide Declarable;
    if forall j {:trigger docs[j]} :: 0 <= j < |docs| ==> ProductDeclarable(m, docs[j].product) {
      forall d, input {:trigger Declarable(m, d.product, input)} | d in docs && input in d.product.inputs
        ensures Declarable(m, d.product, input)
      {
        var j :| 0 <= j < |docs| && docs[j] == d;
        var i :| 0 <= i < |d.product.inputs| && d.product.inputs[i] == input;
        assert ProductDeclarable(m, docs[j].product);
      }
    }
  }

  lemma {:induction false} PresentEverywhere(m: Index, docs: seq<Document>)
    ensures AllPresent(m, docs) <==>
              forall j {:trigger docs[j]} :: 0 <= j < |docs| ==> ProductPresent(m, docs[j].product)
  {
    hide Producer;
    if forall j {:trigger docs[j]} :: 0 <= j < |docs| ==> ProductPresent(m, docs[j].product) {
      forall d, input {:trigger Producer(d.product, input)} | d in docs && input in d.product.inputs
        ensures Producer(d.product, input) in m
      {
        var j :| 0 <= j < |docs| && docs[j] == d;
        var i :| 0 <= i < |d.product.inputs| && d.product.inputs[i] == input;
        assert ProductPresent(m, docs[j].product);
      }
    }
  }

  /** What one graph check adds to a report. */
  ghost predicate Adds(docs: seq<Document>, added: seq<Finding>)
  {
    if TotalInputs(docs) > MAX_INPUTS then
      added == [Finding(0, Error, "CompositionLimit", Inputs, [], false)]
    else
      var found := DocumentFindings(ByKey(docs), docs, |docs|);
      added == found ||
      (NoErrors(found) && exists f :: added == found + [f] && WitnessFinding(docs, f))
  }

  function CodeText(code: Code): string
  {
    match code
    case Clean => ""
    case ValidationLimit => "ValidationLimit"
    case CompositionCycle => "CompositionCycle"
    case CompositionLimit => "CompositionLimit"
  }

  /** An error with a reported witness, placed at the document and input of its first step. */
  ghost predicate WitnessFinding(docs: seq<Document>, f: Finding)
  {
    && f.severity == Error && 1 <= f.document <= |docs|
    && (exists code :: code != Clean && f.code == CodeText(code) && Reported(ByKey(docs), code, f.steps, f.truncated))
    && (if f.steps == [] then f.place == Inputs
        else f.place == ProductRefOf(f.steps[0].input) && docs[f.document - 1].origin == f.steps[0].origin)
  }

  /** The map of products and the number of inputs. */
  method Summarise(docs: seq<Document>) returns (products: Index, edges: nat)
    ensures products == ByKey(docs) && edges == TotalInputs(docs)
  {
    products, edges := map[], 0;
    for index := 0 to |docs|
      invariant products == ByKey(docs[..index]) && edges == TotalInputs(docs[..index])
    {
      assert docs[..index + 1][..index] == docs[..index] && docs[..index + 1][index] == docs[index];
      products := products[KeyOf(docs[index]) := docs[index]];
      edges := edges + |docs[index].product.inputs|;
    }
    assert docs[..|docs|] == docs;
  }

  lemma {:induction false} ReportIs(r: Report)
    requires r.Valid()
    ensures r.valid <==> NoErrors(r.findings)
  {
    hide NoErrors, CountOf;
  }

  lemma {:induction false} LimitAdds(docs: seq<Document>, was: seq<Finding>, now: seq<Finding>)
    requires TotalInputs(docs) > MAX_INPUTS && now == was + [Finding(0, Error, "CompositionLimit", Inputs, [], false)]
    ensures Adds(docs, now[|was|..]) && !BundleValid(docs) && !BundleComplete(docs) && !NoErrors(now) && was <= now
  {
    assert now[|was|..] == [Finding(0, Error, "CompositionLimit", Inputs, [], false)];
    assert now[|now| - 1] in now;
  }

  lemma {:induction false} InputsAdd(docs: seq<Document>, was: seq<Finding>, now: seq<Finding>)
    requires TotalInputs(docs) <= MAX_INPUTS && NoErrors(was)
    requires now == was + DocumentFindings(ByKey(docs), docs, |docs|)
    ensures Adds(docs, now[|was|..]) && was <= now
    ensures NoErrors(now) <==> AllDeclarable(ByKey(docs), docs)
    ensures now == was <==> AllDeclarable(ByKey(docs), docs) && AllPresent(ByKey(docs), docs)
  {
    var found := DocumentFindings(ByKey(docs), docs, |docs|);
    hide ByKey, DocumentFindings, NoErrors, AllDeclarable, AllPresent;
    AllFindingsMean(ByKey(docs), docs);
    ErrorsJoin(was, found);
    assert now[|was|..] == found;
  }

  lemma {:induction false} LastIsError(findings: seq<Finding>)
    requires findings != [] && findings[|findings| - 1].severity == Error
    ensures !NoErrors(findings)
  {
    assert findings[|findings| - 1] in findings;
  }

  lemma {:induction false} WitnessAdds(docs: seq<Document>, was: seq<Finding>, f: Finding, now: seq<Finding>)
    requires TotalInputs(docs) <= MAX_INPUTS && WitnessFinding(docs, f)
    requires AllDeclarable(ByKey(docs), docs)
    requires now == was + DocumentFindings(ByKey(docs), docs, |docs|) + [f]
    ensures Adds(docs, now[|was|..]) && !NoErrors(now) && was <= now && now != was
  {
    hide *;
    AllFindingsMean(ByKey(docs), docs);
    WitnessIsError(docs, f);
    LastIsError(now);
    var found := DocumentFindings(ByKey(docs), docs, |docs|);
    assert now[|was|..] == found + [f];
    OneMoreAdds(docs, found, f);
  }

  lemma {:induction false} WitnessIsError(docs: seq<Document>, f: Finding)
    requires WitnessFinding(docs, f)
    ensures f.severity == Error
  {
    hide Reported, ByKey;
  }

  lemma {:induction false} OneMoreAdds(docs: seq<Document>, found: seq<Finding>, f: Finding)
    requires TotalInputs(docs) <= MAX_INPUTS && NoErrors(found) && WitnessFinding(docs, f)
    requires found == DocumentFindings(ByKey(docs), docs, |docs|)
    ensures Adds(docs, found + [f])
  {
    hide WitnessFinding, NoErrors, DocumentFindings, ByKey, TotalInputs;
  }

  /** The finding made of a witness. */
  function FromWitness(number: nat, code: Code, trail: seq<Step>, truncated: bool): Finding
  {
    Finding(number, Error, CodeText(code), if trail == [] then Inputs else ProductRefOf(trail[0].input), trail,
            truncated)
  }

  lemma {:induction false} FromWitnessIs(docs: seq<Document>, number: nat, code: Code, trail: seq<Step>,
                                         truncated: bool)
    requires code != Clean && Reported(ByKey(docs), code, trail, truncated) && 1 <= number <= |docs|
    requires trail != [] ==> docs[number - 1].origin == trail[0].origin
    ensures WitnessFinding(docs, FromWitness(number, code, trail, truncated))
  {
    hide Reported, ByKey;
  }

  lemma {:induction false} BundleIs(docs: seq<Document>)
    ensures BundleValid(docs) <==>
              TotalInputs(docs) <= MAX_INPUTS && AllDeclarable(ByKey(docs), docs) && Bounded(ByKey(docs))
    ensures BundleComplete(docs) <==> BundleValid(docs) && AllPresent(ByKey(docs), docs)
  {
    hide TotalInputs, AllDeclarable, Bounded, AllPresent;
  }

  /**
   Validates the declared graph of a bundle. Without a deadline the report stays valid exactly when the bundle
   is valid, and nothing at all is added exactly when it is complete as well.
   */
  method CheckGraph(report: Report, docs: seq<Document>, deadline: Option<nat>)
    requires report.Valid() && report.valid
    modifies report
    ensures report.Valid() && old(report.findings) <= report.findings
    ensures report.documents == old(report.documents) && report.failure == old(report.failure)
    ensures Placed(old(report.details), report.details, report.documents, report.failure)
    ensures Adds(docs, report.findings[|old(report.findings)|..])
    ensures report.valid ==> BundleValid(docs)
    ensures report.findings == old(report.findings) ==> BundleComplete(docs)
    ensures deadline.None? ==>
              && (report.valid <==> BundleValid(docs))
              && (report.findings == old(report.findings) <==> BundleComplete(docs))
  {
    hide *;
    ghost var was, details := report.findings, report.details;
    ReportIs(report);
    BundleIs(docs);
    var products, edges := Summarise(docs);
    if edges > MAX_INPUTS {
      report.AddDetail(0, Error, "CompositionLimit", Inputs, [], false);
      ReportIs(report);
      LimitAdds(docs, was, report.findings);
      return;
    }
    CheckInputs(report, docs, products);
    InputsAdd(docs, was, report.findings);
    ReportIs(report);
    if !report.valid {
      return;
    }
    var number, code, trail, truncated := GraphWitness(docs, deadline);
    if code != Clean {
      FromWitnessIs(docs, number, code, trail, truncated);
      var f := FromWitness(number, code, trail, truncated);
      ghost var reached := report.details;
      report.AddDetail(f.document, f.severity, f.code, f.place, f.steps, f.truncated);
      PlacedJoins(details, reached, report.details, report.documents, report.failure);
      WitnessAdds(docs, was, f, report.findings);
      ReportIs(report);
    }
  }

  lemma {:induction false} NextInput(m: Index, number: nat, p: Product, i: nat)
    requires i < |p.inputs|
    ensures InputFindings(m, number, p, i + 1) == InputFindings(m, number, p, i) + InputFinding(m, number, p, i)
    ensures InputFindings(m, number, p, 0) == []
  {
    hide InputFinding;
  }

  lemma {:induction false} NextDocument(m: Index, docs: seq<Document>, n: nat)
    requires n < |docs|
    ensures DocumentFindings(m, docs, n + 1) ==
            DocumentFindings(m, docs, n) + InputFindings(m, n + 1, docs[n].product, |docs[n].product.inputs|)
  {
    hide InputFindings;
  }

  lemma {:induction false} FirstFindings(m: Index, docs: seq<Document>)
    ensures DocumentFindings(m, docs, 0) == []
    ensures forall number, p {:trigger InputFindings(m, number, p, 0)} :: InputFindings(m, number, p, 0) == []
  {
  }

  /** The nested loops over documents and inputs. */
  method CheckInputs(report: Report, docs: seq<Document>, products: Index)
    requires report.Valid()
    modifies report
    ensures report.Valid() && report.documents == old(report.documents) && report.failure == old(report.failure)
    ensures Placed(old(report.details), report.details, report.documents, report.failure)
    ensures report.findings == old(report.findings) + DocumentFindings(products, docs, |docs|)
  {
    hide *;
    ghost var was, details := report.findings, report.details;
    PlacedSame(details, report.documents, report.failure);
    FirstFindings(products, docs);
    for index := 0 to |docs|
      invariant report.Valid() && report.documents == old(report.documents) && report.failure == old(report.failure)
      invariant Placed(details, report.details, report.documents, report.failure)
      invariant report.findings == was + DocumentFindings(products, docs, index)
    {
      var product := docs[index].product;
      ghost var before := report.findings;
      for inputIndex := 0 to |product.inputs|
        invariant report.Valid() && report.documents == old(report.documents) && report.failure == old(report.failure)
        invariant Placed(details, report.details, report.documents, report.failure)
        invariant report.findings == before + InputFindings(products, index + 1, product, inputIndex)
      {
        NextInput(products, index + 1, product, inputIndex);
        ghost var reached := report.details;
        CheckInput(report, products, index + 1, product, inputIndex);
        PlacedJoins(details, reached, report.details, report.documents, report.failure);
      }
      NextDocument(products, docs, index);
    }
  }

  /** The body of the inner loop. */
  method CheckInput(report: Report, products: Index, number: nat, product: Product, inputIndex: nat)
    requires report.Valid() && inputIndex < |product.inputs|
    modifies report
    ensures report.Valid() && report.documents == old(report.documents) && report.failure == old(report.failure)
    ensures Placed(old(report.details), report.details, report.documents, report.failure)
    ensures report.findings == old(report.findings) + InputFinding(products, number, product, inputIndex)
  {
    hide Report.Valid, InputCompatibility, Target, Producer, Placed;
    PlacedSame(report.details, report.documents, report.failure);
    var input := product.inputs[inputIndex];
    if Target(product.key, input).ns != product.key.ns {
      report.AddDetail(number, Error, "CrossNamespaceInput", ProductRefOf(inputIndex), [], false);
    } else if Producer(product, input) !in products {
      report.AddDetail(number, Warning, "ProducerUnresolved", ProductRefOf(inputIndex), [], false);
    } else {
      var reason := InputCompatibility(input, products[Producer(product, input)].product);
      CompatibilityReasons(input, products[Producer(product, input)].product);
      if reason == OutputNotFound {
        report.AddDetail(number, Error, "OutputNotFound", OutputOf(inputIndex), [], false);
      } else if reason != NoReason {
        report.AddDetail(number, Error, "ContractIncompatible", ContractOf(inputIndex), [], false);
      }
    }
  }
}
