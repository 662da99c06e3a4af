/** The offline check from the selected sources to the public report, and what the browser makes of that report. */
module BundleCheck {
  import opened Products
  import opened Bundle
  import opened Findings
  import opened Declarations
  import opened Reading
  import opened ReportCheck
  import opened Publishing
  import Features
  import Plan
  import PlanCheck
  import PlanAccepted
  import Preflight
  import Deployment
  import Witness
  import Composition
  import CompositionTheorems

  const PREVIEW_LIMIT := "PreviewLimit"
  const VALIDATION_UNAVAILABLE := "ValidationUnavailable"
  const INVALID_NAMESPACE := "InvalidNamespace"
  const INVALID_METADATA := "InvalidPublicMetadata"

  /** Whether the embedded validator loads, and whether the encoded reports stay within 2 MiB. */
  datatype Environment = Environment(admission: bool, fits: bool, bundleFits: bool)

  // ---------------------------------------------------------------- documents

  /** The documents the graph is checked on. */
  function Checked(selected: seq<Selected>, namespace: string): (docs: seq<Selected>)
    ensures |docs| == |selected|
    ensures forall i {:trigger docs[i]} :: 0 <= i < |docs| ==>
              docs[i] == Selected(selected[i].origin, Unobserved(Resolved(selected, namespace, i)))
  {
    seq(|selected|, i requires 0 <= i < |selected| =>
      Selected(selected[i].origin, Unobserved(Resolved(selected, namespace, i))))
  }

  function Previews(docs: seq<Selected>): (ds: seq<PlanCheck.Descriptor>)
    ensures |ds| == |docs|
    ensures forall i {:trigger ds[i]} {:trigger docs[i]} :: 0 <= i < |ds| ==> ds[i] == Preview(docs[i].declaration)
  {
    seq(|docs|, i requires 0 <= i < |docs| => Preview(docs[i].declaration))
  }

  lemma {:induction false} FollowedIsChecked(selected: seq<Selected>, namespace: string, docs: seq<Selected>)
    requires Followed(selected, namespace, docs, |selected|, true)
    ensures docs == Checked(selected, namespace)
  {
    hide Resolved;
    forall i | 0 <= i < |docs|
      ensures docs[i] == Checked(selected, namespace)[i]
    {
      assert Origins(docs)[i] == Origins(selected)[i];
    }
  }

  lemma {:induction false} PublishableNames(d: Declaration, apiOnly: bool)
    requires Publishable(d, apiOnly)
    ensures var k := Unobserved(d).product.key;
            '/' !in k.ns && Ascii(k.ns) && |k.ns| <= 63 && Ascii(k.name) && |k.name| <= 253
  {
    LabelsAreText(d.product.key.ns);
    SubdomainsAreText(d.product.key.name);
    hide DnsLabel, DnsSubdomain, OutputNames, Ascii;
  }

  /** An admissible selection is a bundle as the graph check, the plan and the deployment results take it. */
  lemma {:induction false} AdmissibleIsAdmitted(selected: seq<Selected>, namespace: string, apiOnly: bool)
    requires Admissible(selected, namespace, apiOnly, |selected|) && Ascending(Origins(selected))
    requires 1 <= |selected| <= Reading.MAX_PRODUCTS
    ensures Deployment.Admitted(DocumentsOf(Checked(selected, namespace)))
  {
    hide Resolved, Publishable, Ascii, Text;
    var docs := DocumentsOf(Checked(selected, namespace));
    forall i, j | 0 <= i < j < |docs|
      ensures KeyOf(docs[i]) != KeyOf(docs[j]) && docs[i].origin != docs[j].origin
    {
      assert Reading.Before(Origins(selected)[i], Origins(selected)[j]);
      assert Text(Resolved(selected, namespace, i).product.key) != Text(Resolved(selected, namespace, j).product.key);
    }
    forall d {:trigger d.product} | d in docs
      ensures '/' !in d.product.key.ns && Ascii(d.product.key.ns) && |d.product.key.ns| <= 63
      ensures Ascii(d.product.key.name) && |d.product.key.name| <= 253
    {
      var i :| 0 <= i < |docs| && docs[i] == d;
      PublishableNames(Resolved(selected, namespace, i), apiOnly);
    }
  }

  // ---------------------------------------------------------------- the complete report

  lemma {:induction false} FeatureMapAt(entries: seq<Entry>, i: nat)
    requires i < |entries| && AllDifferent(Positions(entries))
    ensures entries[i].origin in FeatureMap(entries)
    ensures FeatureMap(entries)[entries[i].origin] == Features.Elements(entries[i].features)
    decreases |entries|
  {
    var front := entries[..|entries| - 1];
    forall a, b | 0 <= a < b < |front|
      ensures Positions(front)[a] != Positions(front)[b]
    {
      assert Positions(entries)[a] != Positions(entries)[b];
    }
    if i < |front| {
      FeatureMapAt(front, i);
      assert front[i] == entries[i];
      assert Positions(entries)[i] != Positions(entries)[|front|];
    }
  }

  lemma {:induction false} FeatureMapKeys(entries: seq<Entry>, o: Origin)
    ensures o in FeatureMap(entries) ==> exists i :: 0 <= i < |entries| && entries[i].origin == o
    decreases |entries|
  {
    if o in FeatureMap(entries) && entries[|entries| - 1].origin != o {
      var front := entries[..|entries| - 1];
      FeatureMapKeys(front, o);
      var i :| 0 <= i < |front| && front[i].origin == o;
      assert entries[i].origin == o;
    }
  }

  /** The report of an admitted selection describes its documents, with features that cover every descriptor. */
  lemma {:induction false} ReportPublishes(selected: seq<Selected>, namespace: string, apiOnly: bool,
                                           summaries: seq<Summary>,
                                           entries: seq<Entry>)
    requires Admissible(selected, namespace, apiOnly, |selected|) && Covers(summaries, Origins(selected))
    requires |summaries| <= Reading.MAX_SOURCES
    requires Listing(Origins(selected), Checked(selected, namespace), |selected|, entries, true)
    ensures var docs := Checked(selected, namespace);
            PlanAccepted.Published(DocumentsOf(docs),
                                   PlanCheck.Complete(Reading.Counts(summaries), FeatureMap(entries), Previews(docs)))
  {
    var docs := Checked(selected, namespace);
    var bundle := DocumentsOf(docs);
    var r := PlanCheck.Complete(Reading.Counts(summaries), FeatureMap(entries), Previews(docs));
    hide *;
    ListingCount(Origins(selected), docs, entries);
    forall i {:trigger r.descriptors[i]} | 0 <= i < |bundle|
      ensures Serves(r, bundle[i], r.descriptors[i])
    {
      EntryServes(selected, namespace, summaries, entries, i);
      ServesIs(r, docs[i]);
    }
    forall i, j | 0 <= i < j < |bundle|
      ensures r.descriptors[i].id != r.descriptors[j].id
    {
      PreviewsDiffer(selected, namespace, apiOnly, i, j);
    }
    forall o {:trigger r.features[o]} | o in r.features
      ensures exists i :: 0 <= i < |bundle| && bundle[i].origin == o
    {
      FeatureMapKeys(entries, o);
      var i :| 0 <= i < |entries| && entries[i].origin == o;
      EntryStands(selected, namespace, entries, i);
      assert bundle[i].origin == o;
    }
    PublishedFrom(bundle, r);
  }

  /** The descriptor describes the document, and the features at its position cover it. */
  ghost predicate Serves(r: PlanCheck.Complete, doc: Document, d: PlanCheck.Descriptor)
  {
    && PlanAccepted.Describes(d, doc.product) && PlanCheck.ValidPosition(r.sources, doc.origin)
    && doc.origin in r.features && PlanCheck.RequiredFeatures(d) <= r.features[doc.origin]
  }

  lemma {:induction false} ServesIs(r: PlanCheck.Complete, s: Selected)
    requires PlanAccepted.Describes(Preview(s.declaration), s.declaration.product)
    requires PlanCheck.ValidPosition(r.sources, s.origin) && s.origin in r.features
    requires PlanCheck.RequiredFeatures(Preview(s.declaration)) <= r.features[s.origin]
    ensures Serves(r, DocumentOf(s), Preview(s.declaration))
  {
    hide PlanAccepted.Describes, PlanCheck.ValidPosition, PlanCheck.RequiredFeatures, Preview;
  }

  lemma {:induction false} PublishedFrom(docs: seq<Document>, r: PlanCheck.Complete)
    requires |r.descriptors| == |docs|
    requires forall i {:trigger r.descriptors[i]} :: 0 <= i < |docs| ==> Serves(r, docs[i], r.descriptors[i])
    requires forall i, j :: 0 <= i < j < |docs| ==> r.descriptors[i].id != r.descriptors[j].id
    requires forall o {:trigger r.features[o]} :: o in r.features ==> exists i :: 0 <= i < |docs| && docs[i].origin == o
    ensures PlanAccepted.Published(docs, r)
  {
    hide PlanAccepted.Describes, PlanCheck.ValidPosition, PlanCheck.RequiredFeatures;
    forall i | 0 <= i < |docs|
      ensures Serves(r, docs[i], r.descriptors[i])
    {
      assert r.descriptors[i] == r.descriptors[i];
    }
  }

  lemma {:induction false} PreviewsDiffer(selected: seq<Selected>, namespace: string, apiOnly: bool, i: nat, j: nat)
    requires Admissible(selected, namespace, apiOnly, |selected|) && i < j < |selected|
    ensures Preview(Checked(selected, namespace)[i].declaration).id !=
            Preview(Checked(selected, namespace)[j].declaration).id
  {
    hide Resolved, Publishable;
    assert Resolved(selected, namespace, i).id != Resolved(selected, namespace, j).id;
  }

  lemma {:induction false} EntryStands(selected: seq<Selected>, namespace: string, entries: seq<Entry>, i: nat)
    requires i < |entries| && Listing(Origins(selected), Checked(selected, namespace), |selected|, entries, true)
    ensures i < |selected| && entries[i].origin == DocumentsOf(Checked(selected, namespace))[i].origin
  {
    hide Resolved, CountIn, Required, Features.ListSound, Features.Elements, Ascending;
    assert entries[i].origin == Origins(selected)[i];
  }

  /** The feature list of a document stands at its position and serves its preview. */
  lemma {:induction false} EntryServes(selected: seq<Selected>, namespace: string, summaries: seq<Summary>,
                                       entries: seq<Entry>, i: nat)
    requires Covers(summaries, Origins(selected)) && i < |selected|
    requires Listing(Origins(selected), Checked(selected, namespace), |selected|, entries, true)
    ensures var d := Checked(selected, namespace)[i];
            && PlanAccepted.Describes(Preview(d.declaration), d.declaration.product)
            && PlanCheck.ValidPosition(Reading.Counts(summaries), d.origin)
            && d.origin in FeatureMap(entries)
            && PlanCheck.RequiredFeatures(Preview(d.declaration)) <= FeatureMap(entries)[d.origin]
  {
    var docs := Checked(selected, namespace);
    EntriesDiffer(Origins(selected), docs, entries);
    hide Resolved, CountIn, Required, PlanCheck.RequiredFeatures, PlanCheck.ValidPosition, Features.ListSound,
         FeatureMap;
    hide Features.Elements, Total, Ascending, AllDifferent;
    FeatureMapAt(entries, i);
    DescriptorServed(docs[i].declaration);
    assert entries[i].origin == Origins(selected)[i] && Origins(selected)[i] in Origins(selected);
  }

  lemma {:induction false} EntriesDiffer(origins: seq<Origin>, docs: seq<Selected>, entries: seq<Entry>)
    requires |origins| == |docs| && Listing(origins, docs, |origins|, entries, true)
    ensures AllDifferent(Positions(entries))
  {
    hide CountIn, Required, Features.ListSound, Features.Elements;
    var positions := Positions(entries);
    forall i, j | 0 <= i < j < |positions|
      ensures positions[i] != positions[j]
    {
      assert Reading.Before(positions[i], positions[j]);
    }
  }

  // ---------------------------------------------------------------- findings

  /** A finding the reader can place, wherever its own position is. */
  ghost predicate Findable(summaries: seq<Summary>, f: Finding)
  {
    && PublicCode(f.code) && |f.steps| <= MAX_STEPS
    && forall s :: s in f.steps ==> PlanCheck.ValidPosition(Reading.Counts(summaries), s.origin)
  }

  ghost predicate AllFindable(summaries: seq<Summary>, findings: seq<Finding>)
  {
    forall f :: f in findings ==> Findable(summaries, f)
  }

  lemma {:induction false} FindableJoins(summaries: seq<Summary>, a: seq<Finding>, b: seq<Finding>)
    requires AllFindable(summaries, a) && AllFindable(summaries, b)
    ensures AllFindable(summaries, a + b)
  {
    hide Findable;
  }

  lemma {:induction false} NothingFindable(summaries: seq<Summary>)
    ensures AllFindable(summaries, [])
  {
  }

  lemma {:induction false} SimpleIsFindable(summaries: seq<Summary>, findings: seq<Finding>)
    requires Simple(findings)
    ensures AllFindable(summaries, findings)
  {
    hide PublicCode, PlanCheck.ValidPosition;
  }

  lemma {:induction false} InputFindable(summaries: seq<Summary>, m: Index, number: nat, p: Product, i: nat)
    requires i < |p.inputs|
    ensures AllFindable(summaries, Preflight.InputFinding(m, number, p, i))
  {
    InputCodes();
    hide PublicCode, PlanCheck.ValidPosition;
  }

  lemma {:induction false} InputCodes()
    ensures PublicCode("CrossNamespaceInput") && PublicCode("ProducerUnresolved")
    ensures PublicCode("OutputNotFound") && PublicCode("ContractIncompatible")
  {
  }

  lemma {:induction false} InputsFindable(summaries: seq<Summary>, m: Index, number: nat, p: Product, n: nat)
    requires n <= |p.inputs|
    ensures AllFindable(summaries, Preflight.InputFindings(m, number, p, n))
    decreases n
  {
    hide AllFindable, Preflight.InputFinding;
    NothingFindable(summaries);
    if n > 0 {
      InputsFindable(summaries, m, number, p, n - 1);
      InputFindable(summaries, m, number, p, n - 1);
      FindableJoins(summaries, Preflight.InputFindings(m, number, p, n - 1),
                    Preflight.InputFinding(m, number, p, n - 1));
    }
  }

  lemma {:induction false} DocumentsFindable(summaries: seq<Summary>, m: Index, docs: seq<Document>, n: nat)
    requires n <= |docs|
    ensures AllFindable(summaries, Preflight.DocumentFindings(m, docs, n))
    decreases n
  {
    hide AllFindable, Preflight.InputFindings;
    NothingFindable(summaries);
    if n > 0 {
      var p := docs[n - 1].product;
      DocumentsFindable(summaries, m, docs, n - 1);
      InputsFindable(summaries, m, n, p, |p.inputs|);
      FindableJoins(summaries, Preflight.DocumentFindings(m, docs, n - 1),
                    Preflight.InputFindings(m, n, p, |p.inputs|));
    }
  }

  /** Every document of the bundle stands at a position of the summaries. */
  ghost predicate Located(summaries: seq<Summary>, docs: seq<Document>)
  {
    forall d {:trigger d.origin} :: d in docs ==> PlanCheck.ValidPosition(Reading.Counts(summaries), d.origin)
  }

  /** Every step of a chain leaves a document. */
  lemma {:induction false} ChainLocated(summaries: seq<Summary>, docs: seq<Document>, a: string,
                                        steps: seq<Witness.Step>, b: string,
                                        s: Witness.Step)
    requires Located(summaries, docs) && Witness.Chain(ByKey(docs), a, steps, b) && s in steps
    ensures PlanCheck.ValidPosition(Reading.Counts(summaries), s.origin)
    decreases |steps|
  {
    hide PlanCheck.ValidPosition, ByKey;
    var c :| Witness.Leaves(ByKey(docs), a, steps[0], c) && Witness.Chain(ByKey(docs), c, steps[1..], b);
    if s == steps[0] {
      assert ByKey(docs)[a] in docs && s.origin == ByKey(docs)[a].origin;
    } else {
      var i :| 0 <= i < |steps| && steps[i] == s;
      assert steps[1..][i - 1] == s;
      ChainLocated(summaries, docs, c, steps[1..], b, s);
    }
  }

  lemma {:induction false} JustifiedLocated(summaries: seq<Summary>, docs: seq<Document>, code: Witness.Code,
                                            steps: seq<Witness.Step>, s: Witness.Step)
    requires Located(summaries, docs) && Witness.Justified(ByKey(docs), code, steps) && code != Witness.Clean &&
             s in steps
    ensures PlanCheck.ValidPosition(Reading.Counts(summaries), s.origin)
  {
    hide Located, Witness.Chain, PlanCheck.ValidPosition;
    if code == Witness.CompositionCycle {
      var k :| Witness.Chain(ByKey(docs), k, steps, k);
      ChainLocated(summaries, docs, k, steps, k, s);
    } else {
      var a, b :| Witness.Chain(ByKey(docs), a, steps, b);
      ChainLocated(summaries, docs, a, steps, b, s);
    }
  }

  lemma {:induction false} ReportedFindable(summaries: seq<Summary>, docs: seq<Document>, f: Finding,
                                            code: Witness.Code)
    requires Located(summaries, docs) && code != Witness.Clean && f.code == Preflight.CodeText(code)
    requires Witness.Reported(ByKey(docs), code, f.steps, f.truncated)
    ensures Findable(summaries, f)
  {
    hide *;
    WitnessCode(code);
    var full := FullWitness(ByKey(docs), code, f.steps, f.truncated);
    FirstOf(full);
    forall s | s in f.steps
      ensures PlanCheck.ValidPosition(Reading.Counts(summaries), s.origin)
    {
      JustifiedLocated(summaries, docs, code, full, s);
    }
    FindableIs(summaries, f);
  }

  lemma {:induction false} FullWitness(m: Index, code: Witness.Code, steps: seq<Witness.Step>, truncated: bool)
    returns (full: seq<Witness.Step>)
    requires Witness.Reported(m, code, steps, truncated)
    ensures Witness.Justified(m, code, full) && steps == Witness.First(full)
  {
    hide Witness.Justified;
    full :| Witness.Justified(m, code, full) && steps == Witness.First(full) &&
      (truncated <==> |full| > Witness.MAX_STEPS);
  }

  lemma {:induction false} FindableIs(summaries: seq<Summary>, f: Finding)
    requires PublicCode(f.code) && |f.steps| <= MAX_STEPS
    requires forall s :: s in f.steps ==> PlanCheck.ValidPosition(Reading.Counts(summaries), s.origin)
    ensures Findable(summaries, f)
  {
    hide PublicCode, PlanCheck.ValidPosition;
  }

  lemma {:induction false} FirstOf(steps: seq<Witness.Step>)
    ensures |Witness.First(steps)| <= MAX_STEPS && forall s :: s in Witness.First(steps) ==> s in steps
  {
  }

  lemma {:induction false} WitnessCode(code: Witness.Code)
    requires code != Witness.Clean
    ensures PublicCode(Preflight.CodeText(code))
    ensures PublicCode("CompositionLimit")
  {
  }

  lemma {:induction false} WitnessFindable(summaries: seq<Summary>, docs: seq<Document>, f: Finding)
    requires Located(summaries, docs) && Preflight.WitnessFinding(docs, f)
    ensures Findable(summaries, f)
  {
    hide Located, Findable, Witness.Reported, Preflight.CodeText;
    var code :| code != Witness.Clean && f.code == Preflight.CodeText(code)
                && Witness.Reported(ByKey(docs), code, f.steps, f.truncated);
    ReportedFindable(summaries, docs, f, code);
  }

  lemma {:induction false} OneFindable(summaries: seq<Summary>, f: Finding)
    requires Findable(summaries, f)
    ensures AllFindable(summaries, [f])
  {
    hide Findable;
  }

  /** Whatever the graph check adds, the reader can place. */
  lemma {:induction false} GraphFindable(summaries: seq<Summary>, docs: seq<Document>, added: seq<Finding>)
    requires Located(summaries, docs) && Preflight.Adds(docs, added)
    ensures AllFindable(summaries, added)
  {
    hide AllFindable, Located, Findable, Preflight.DocumentFindings, Preflight.TotalInputs, Preflight.WitnessFinding,
         NoErrors, ByKey;
    if Preflight.TotalInputs(docs) > Preflight.MAX_INPUTS {
      LimitFindable(summaries, added[0]);
      OneFindable(summaries, added[0]);
    } else {
      var found := Preflight.DocumentFindings(ByKey(docs), docs, |docs|);
      DocumentsFindable(summaries, ByKey(docs), docs, |docs|);
      if added != found {
        var f :| added == found + [f] && Preflight.WitnessFinding(docs, f);
        WitnessFindable(summaries, docs, f);
        OneFindable(summaries, f);
        FindableJoins(summaries, found, [f]);
      }
    }
  }

  lemma {:induction false} LimitFindable(summaries: seq<Summary>, f: Finding)
    requires f.code == "CompositionLimit" && f.steps == []
    ensures Findable(summaries, f)
  {
    WitnessCode(Witness.CompositionLimit);
    hide PublicCode, PlanCheck.ValidPosition;
  }

  // ---------------------------------------------------------------- positions of details

  ghost predicate Placeable(summaries: seq<Summary>, details: seq<Diagnostic>)
  {
    forall d :: d in details ==> GlobalPosition(summaries, d.origin)
  }

  lemma {:induction false} PlacedIsPlaceable(summaries: seq<Summary>, before: seq<Diagnostic>, after: seq<Diagnostic>,
                                             documents: seq<Document>, failure: Origin)
    requires Placeable(summaries, before) && Placed(before, after, documents, failure)
    requires Located(summaries, documents) && GlobalPosition(summaries, failure)
    ensures Placeable(summaries, after)
  {
    forall d | d in after
      ensures GlobalPosition(summaries, d.origin)
    {
      var i :| 0 <= i < |after| && after[i] == d;
      if i < |before| {
        assert before[i] == d && d in before;
      } else if 0 < d.finding.document <= |documents| {
        var e := documents[d.finding.document - 1];
        assert e in documents && d.origin == e.origin;
      }
    }
  }

  /** Displayed findings are findings, so a report is sound where its findings are. */
  lemma {:induction false} DetailsAreSound(report: Report, summaries: seq<Summary>)
    requires report.Valid() && Placeable(summaries, report.details) && AllFindable(summaries, report.findings)
    ensures DetailsSound(summaries, report.details)
  {
    hide GlobalPosition, PublicCode, PlanCheck.ValidPosition, Counted, NoErrors;
    forall d | d in report.details
      ensures DetailSound(summaries, d)
    {
      var i :| 0 <= i < |report.details| && report.details[i] == d;
      assert report.findings[i] in report.findings && Findable(summaries, d.finding);
    }
  }

  /** Everything in the report so far can be placed by the reader, and what is added next will be. */
  ghost predicate Noted(summaries: seq<Summary>, details: seq<Diagnostic>, findings: seq<Finding>,
                        documents: seq<Document>,
                        failure: Origin)
  {
    && Placeable(summaries, details) && AllFindable(summaries, findings)
    && Located(summaries, documents) && GlobalPosition(summaries, failure)
  }

  lemma {:induction false} NotedMore(summaries: seq<Summary>, beforeD: seq<Diagnostic>, afterD: seq<Diagnostic>,
                                     findings: seq<Finding>, added: seq<Finding>, documents: seq<Document>,
                                     failure: Origin)
    requires Noted(summaries, beforeD, findings, documents, failure) && Placed(beforeD, afterD, documents, failure)
    requires AllFindable(summaries, added)
    ensures Noted(summaries, afterD, findings + added, documents, failure)
  {
    hide Placeable, AllFindable, Located, GlobalPosition, Placed;
    PlacedIsPlaceable(summaries, beforeD, afterD, documents, failure);
    FindableJoins(summaries, findings, added);
  }

  lemma {:induction false} NotedSimple(summaries: seq<Summary>, beforeD: seq<Diagnostic>, afterD: seq<Diagnostic>,
                                       findings: seq<Finding>, after: seq<Finding>, documents: seq<Document>,
                                       failure: Origin)
    requires Noted(summaries, beforeD, findings, documents, failure) && Placed(beforeD, afterD, documents, failure)
    requires findings <= after && Simple(after[|findings|..])
    ensures Noted(summaries, afterD, after, documents, failure)
  {
    hide Noted, Placed, Simple;
    SimpleIsFindable(summaries, after[|findings|..]);
    NotedMore(summaries, beforeD, afterD, findings, after[|findings|..], documents, failure);
    assert after == findings + after[|findings|..];
  }

  /** An error that concerns the whole selection, or one declaration as a whole. */
  method AddError(report: Report, ghost summaries: seq<Summary>, number: nat, code: string, place: Place)
    requires report.Valid() && PublicCode(code)
    requires Noted(summaries, report.details, report.findings, report.documents, report.failure)
    modifies report
    ensures report.Valid() && report.documents == old(report.documents) && report.failure == old(report.failure)
    ensures Noted(summaries, report.details, report.findings, report.documents, report.failure)
    ensures report.findings == old(report.findings) + [Finding(number, Error, code, place, [], false)]
    ensures !report.valid && !report.complete
  {
    hide *;
    ghost var details, findings := report.details, report.findings;
    report.AddDetail(number, Error, code, place, [], false);
    ghost var f := Finding(number, Error, code, place, [], false);
    OneSimple(f);
    assert report.findings[|findings|..] == [f];
    NotedSimple(summaries, details, report.details, findings, report.findings, report.documents, report.failure);
    ErrorInvalidates(report, findings, f);
  }

  lemma {:induction false} OneSimple(f: Finding)
    requires f.severity == Error && PublicCode(f.code) && f.steps == []
    ensures Simple([f])
  {
    hide PublicCode;
  }

  lemma {:induction false} ErrorInvalidates(report: Report, findings: seq<Finding>, f: Finding)
    requires report.Valid() && report.findings == findings + [f] && f.severity == Error
    ensures !report.valid && !report.complete
  {
    hide Counted, Shown;
    assert f in report.findings;
  }

  // ---------------------------------------------------------------- the evaluation

  /** What a check of a selection evaluates to, beside the report. */
  datatype Evaluation = Evaluation(summaries: seq<Summary>, entries: seq<Entry>, descriptors: seq<PlanCheck.Descriptor>,
                                   plan: Option<Plan.ReviewPlan>)

  /** The declarations can be published together. */
  ghost predicate Ready(selected: seq<Selected>, namespace: string, apiOnly: bool, e: Environment)
  {
    && e.admission && e.fits && Admissible(selected, namespace, apiOnly, |selected|)
    && Preflight.BundleComplete(DocumentsOf(Checked(selected, namespace)))
    && forall s :: s in selected ==> s.declaration.verdict.again
  }

  /** The selection can be read and published. */
  ghost predicate Publishes(sources: seq<Source>, namespace: string, apiOnly: bool, e: Environment)
  {
    && (namespace == "" || DnsLabel(namespace)) && Selectable(sources)
    && Ready(AllSelections(sources, |sources|), namespace, apiOnly, e)
  }

  ghost predicate PlanReady(v: Evaluation)
  {
    && |v.descriptors| == |v.entries| == Total(v.summaries, ProductsOf) && |v.entries| > 0 && v.plan.Some?
    && PlanCheck.PlanSound(PlanCheck.Complete(Reading.Counts(v.summaries), FeatureMap(v.entries), v.descriptors),
                           v.plan.value)
  }

  ghost predicate Sound(v: Evaluation, valid: bool, complete: bool, details: seq<Diagnostic>)
  {
    && SummariesSound(v.summaries, valid) && EntriesSound(v.summaries, Positions(v.entries), complete)
    && |v.entries| <= Reading.MAX_PRODUCTS && (forall e :: e in v.entries ==> Features.ListSound(e.features))
    && DetailsSound(v.summaries, details) && (complete ==> valid && PlanReady(v))
  }

  /** A report with an error is sound whatever was evaluated. */
  lemma {:induction false} IncompleteIsSound(report: Report, v: Evaluation)
    requires report.Valid() && !report.complete
    requires SummariesSound(v.summaries, report.valid) && EntriesSound(v.summaries, Positions(v.entries), false)
    requires |v.entries| <= Reading.MAX_PRODUCTS && forall e :: e in v.entries ==> Features.ListSound(e.features)
    requires Noted(v.summaries, report.details, report.findings, report.documents, report.failure)
    ensures Sound(v, report.valid, report.complete, report.details)
  {
    DetailsAreSound(report, v.summaries);
    hide SummariesSound, EntriesSound, DetailsSound, PlanReady, Features.ListSound;
  }

  lemma {:induction false} NoEntriesSound(summaries: seq<Summary>)
    ensures EntriesSound(summaries, Positions([]), false)
  {
  }

  /** Before the graph is checked, a valid report has no findings at all. */
  lemma {:induction false} ErrorsOnly(report: Report, summaries: seq<Summary>, details: seq<Diagnostic>,
                                      was: seq<Finding>)
    requires report.Valid() && Interfaces(summaries, details, was) && was <= report.findings
    requires Simple(report.findings[|was|..])
    ensures report.valid <==> report.findings == []
    ensures report.complete <==> report.findings == []
  {
    hide Counted, Shown, PublicCode, GlobalPosition;
    if report.findings != [] {
      var f := report.findings[0];
      if was == [] {
        assert report.findings[|was|..][0] == f;
      } else {
        assert was[0] == f;
      }
      assert f in report.findings;
    }
  }

  /** The preview of every product, encoded once more. */
  method EncodeAll(report: Report, ghost summaries: seq<Summary>, docs: seq<Selected>)
    returns (descriptors: seq<PlanCheck.Descriptor>)
    requires report.Valid() && report.valid && report.complete
    requires Noted(summaries, report.details, report.findings, report.documents, report.failure)
    modifies report
    ensures report.Valid() && report.documents == old(report.documents) && report.failure == old(report.failure)
    ensures Noted(summaries, report.details, report.findings, report.documents, report.failure)
    ensures report.complete ==> report.valid && descriptors == Previews(docs)
    ensures |report.findings| <= |old(report.findings)| + 1
    ensures report.complete <==> EncodesAgain(docs, |docs|)
  {
    hide *;
    NothingEncoded(docs);
    PreviewsAll(docs);
    descriptors := [];
    for index := 0 to |docs|
      invariant report.Valid() && report.valid && report.complete
      invariant report.documents == old(report.documents) && report.failure == old(report.failure)
      invariant Noted(summaries, report.details, report.findings, report.documents, report.failure)
      invariant descriptors == Previews(docs[..index])
      invariant EncodesAgain(docs, index) && report.findings == old(report.findings)
    {
      EncodesMore(docs, index);
      if !docs[index].declaration.verdict.again {
        MetadataIsPublic();
        AddError(report, summaries, index + 1, INVALID_METADATA, At("/spec"));
        return [];
      }
      PreviewsMore(docs, index);
      descriptors := descriptors + [Preview(docs[index].declaration)];
    }
    PreviewsAll(docs);
  }

  /** The first n previews can be encoded once more. */
  ghost predicate EncodesAgain(docs: seq<Selected>, n: nat)
    requires n <= |docs|
  {
    forall i {:trigger docs[i]} :: 0 <= i < n ==> docs[i].declaration.verdict.again
  }

  lemma {:induction false} NothingEncoded(docs: seq<Selected>)
    ensures EncodesAgain(docs, 0)
  {
  }

  lemma {:induction false} EncodesMore(docs: seq<Selected>, n: nat)
    requires n < |docs| && EncodesAgain(docs, n)
    ensures EncodesAgain(docs, n + 1) <==> docs[n].declaration.verdict.again
    ensures !EncodesAgain(docs, n + 1) ==> !EncodesAgain(docs, |docs|)
  {
  }

  lemma {:induction false} PreviewsMore(docs: seq<Selected>, n: nat)
    requires n < |docs|
    ensures Previews(docs[..n + 1]) == Previews(docs[..n]) + [Preview(docs[n].declaration)]
  {
  }

  lemma {:induction false} PreviewsAll(docs: seq<Selected>)
    ensures Previews(docs[..0]) == [] && docs[..|docs|] == docs
  {
  }

  lemma {:induction false} MetadataIsPublic()
    ensures PublicCode(INVALID_METADATA)
  {
  }

  lemma {:induction false} LimitIsPublic()
    ensures PublicCode(PREVIEW_LIMIT)
  {
  }

  lemma {:induction false} UnavailableIsPublic()
    ensures PublicCode(VALIDATION_UNAVAILABLE)
  {
  }

  lemma {:induction false} NamespaceIsPublic()
    ensures PublicCode(INVALID_NAMESPACE)
  {
  }

  /** What reading hands to the check of the declarations. */
  ghost predicate ReadIn(selected: seq<Selected>, summaries: seq<Summary>, apiOnly: bool, details: seq<Diagnostic>,
                         findings: seq<Finding>)
  {
    && 1 <= |selected| <= Reading.MAX_PRODUCTS && Covers(summaries, Origins(selected)) &&
       SummariesSound(summaries, true)
    && Interfaces(summaries, details, findings) && |findings| == RefusedInterfaces(apiOnly, selected)
  }

  lemma {:induction false} ReadIsNoted(selected: seq<Selected>, summaries: seq<Summary>, apiOnly: bool,
                                       details: seq<Diagnostic>,
                                       findings: seq<Finding>)
    requires ReadIn(selected, summaries, apiOnly, details, findings)
    ensures Noted(summaries, details, findings, DocumentsOf(selected), Origin(0, 0))
    ensures Ascending(Origins(selected)) && SummariesSound(summaries, true) && SummariesSound(summaries, false)
    ensures 1 <= |selected| <= Reading.MAX_PRODUCTS && Covers(summaries, Origins(selected))
  {
    SoundAnyway(summaries);
    InterfaceIsPublic();
    hide SummariesSound, PublicCode, PlanCheck.ValidPosition, Ascending, CountIn, Total, RefusedInterfaces;
    var docs := DocumentsOf(selected);
    forall d {:trigger d.origin} | d in docs
      ensures PlanCheck.ValidPosition(Reading.Counts(summaries), d.origin)
    {
      var i :| 0 <= i < |docs| && docs[i] == d;
      assert Origins(selected)[i] == d.origin && d.origin in Origins(selected);
    }
  }

  lemma {:induction false} ReadCount(selected: seq<Selected>, summaries: seq<Summary>, apiOnly: bool,
                                     details: seq<Diagnostic>,
                                     findings: seq<Finding>)
    requires ReadIn(selected, summaries, apiOnly, details, findings)
    ensures |findings| <= 256
  {
    hide SummariesSound, Covers, Interfaces;
  }

  lemma {:induction false} InterfaceIsPublic()
    ensures PublicCode("InvalidUI")
  {
  }

  /** The outcome of admission decides whether the report is still valid. */
  lemma {:induction false} AdmissionDecides(selected: seq<Selected>, summaries: seq<Summary>, namespace: string,
                                            apiOnly: bool,
                                            details: seq<Diagnostic>, was: seq<Finding>, report: Report,
                                            docs: seq<Selected>,
                                            entries: seq<Entry>, stopped: bool)
    requires ReadIn(selected, summaries, apiOnly, details, was) && report.Valid() && was <= report.findings
    requires AllAdmitted(selected, namespace, apiOnly, report.findings[|was|..], docs, entries, stopped)
    ensures Simple(report.findings[|was|..])
    ensures |entries| <= Reading.MAX_PRODUCTS && forall e :: e in entries ==> Features.ListSound(e.features)
    ensures EntriesSound(summaries, Positions(entries), false)
    ensures stopped ==> !report.valid && !report.complete
    ensures !stopped ==> (report.valid <==> Admissible(selected, namespace, apiOnly, |selected|))
    ensures report.valid <==> report.findings == []
    ensures report.complete <==> report.findings == []
    ensures report.valid ==>
              && docs == Checked(selected, namespace) && EntriesSound(summaries, Positions(entries), true)
              && Listing(Origins(selected), docs, |selected|, entries, true)
  {
    hide *;
    var added := report.findings[|was|..];
    ReadParts(selected, summaries, apiOnly, details, was);
    AdmittedParts(selected, namespace, apiOnly, added, docs, entries, stopped, summaries);
    ErrorsOnly(report, summaries, details, was);
    EntriesWeaker(summaries, Positions(entries));
    FreeIsFree(selected, apiOnly);
    if !stopped && Admissible(selected, namespace, apiOnly, |selected|) {
      FollowedIsChecked(selected, namespace, docs);
    }
    assert report.findings == was + added;
    assert report.findings == [] <==> was == [] && added == [];
  }

  lemma {:induction false} ReadParts(selected: seq<Selected>, summaries: seq<Summary>, apiOnly: bool,
                                     details: seq<Diagnostic>,
                                     findings: seq<Finding>)
    requires ReadIn(selected, summaries, apiOnly, details, findings)
    ensures |selected| <= Reading.MAX_PRODUCTS && Covers(summaries, Origins(selected))
    ensures Interfaces(summaries, details, findings) && |findings| == RefusedInterfaces(apiOnly, selected)
  {
    hide SummariesSound, Covers, Interfaces, RefusedInterfaces;
  }

  lemma {:induction false} AdmittedParts(selected: seq<Selected>, namespace: string, apiOnly: bool, added: seq<Finding>,
                                         docs: seq<Selected>, entries: seq<Entry>, stopped: bool,
                                         summaries: seq<Summary>)
    requires AllAdmitted(selected, namespace, apiOnly, added, docs, entries, stopped) &&
             Covers(summaries, Origins(selected))
    ensures Simple(added) && |entries| <= |selected| && forall e :: e in entries ==> Features.ListSound(e.features)
    ensures stopped ==> added != []
    ensures var all := !stopped && Admissible(selected, namespace, apiOnly, |selected|);
            && EntriesSound(summaries, Positions(entries), all)
            && (!stopped ==> (added == [] && InterfaceFree(selected, apiOnly, |selected|) <==> all))
            && (all ==>
                  && Followed(selected, namespace, docs, |selected|, true)
                  && Listing(Origins(selected), docs, |selected|, entries, true))
  {
    hide Simple, Covers, EntriesSound, Listing, Followed, Admissible, InterfaceFree, Admissions, Features.ListSound;
  }

  /** How much is found before the graph is checked: refused user interfaces, and what admission finds. */
  function Complaining(selected: seq<Selected>, namespace: string, apiOnly: bool): nat
  {
    RefusedInterfaces(apiOnly, selected) + |Admissions(selected, namespace, apiOnly, |selected|).0|
  }

  /** How many findings of other kinds there can be at most. */
  const FEW := 1100

  /** A check that complains about declarations counts its complaints, and no check counts many other findings. */
  ghost predicate Tallies(found: nat, complaints: nat, timely: bool)
  {
    found <= complaints + FEW && (timely && complaints > 0 ==> found == complaints)
  }

  lemma {:induction false} AdmissionTallies(selected: seq<Selected>, summaries: seq<Summary>, namespace: string,
                                            apiOnly: bool,
                                            details: seq<Diagnostic>, was: seq<Finding>, findings: seq<Finding>,
                                            docs: seq<Selected>, entries: seq<Entry>, stopped: bool)
    requires ReadIn(selected, summaries, apiOnly, details, was) && was <= findings
    requires AllAdmitted(selected, namespace, apiOnly, findings[|was|..], docs, entries, stopped)
    ensures var complaints := Complaining(selected, namespace, apiOnly);
            if stopped then |findings| <= complaints + 1 else |findings| == complaints
  {
    hide SummariesSound, Covers, Interfaces, RefusedInterfaces, Admissions, Simple, EntriesSound, Listing, Followed,
         Admissible;
    hide InterfaceFree, Features.ListSound;
  }

  lemma {:induction false} FewTally(found: nat, timely: bool)
    requires found <= 1030
    ensures Tallies(found, 0, timely)
  {
  }

  lemma {:induction false} LateTallies(found: nat, complaints: nat)
    requires found <= complaints + 1
    ensures Tallies(found, complaints, false)
  {
  }

  lemma {:induction false} SomeTally(complaints: nat, timely: bool)
    ensures Tallies(complaints, complaints, timely)
  {
  }

  lemma {:induction false} InputsCount(m: Index, number: nat, p: Product, n: nat)
    requires n <= |p.inputs|
    ensures |Preflight.InputFindings(m, number, p, n)| <= n
    decreases n
  {
    hide Producer, Target;
    if n > 0 {
      InputsCount(m, number, p, n - 1);
    }
  }

  lemma {:induction false} DocumentsCount(m: Index, docs: seq<Document>, n: nat)
    requires n <= |docs|
    ensures |Preflight.DocumentFindings(m, docs, n)| <= Preflight.TotalInputs(docs[..n])
    decreases n
  {
    hide Preflight.InputFindings;
    if n > 0 {
      DocumentsCount(m, docs, n - 1);
      InputsCount(m, n, docs[n - 1].product, |docs[n - 1].product.inputs|);
      assert docs[..n][..n - 1] == docs[..n - 1];
    }
  }

  /** The graph check adds at most one finding for every input, and one more. */
  lemma {:induction false} GraphCount(docs: seq<Document>, added: seq<Finding>)
    requires Preflight.Adds(docs, added)
    ensures |added| <= 1025
  {
    hide Preflight.DocumentFindings, Preflight.TotalInputs, Preflight.WitnessFinding, NoErrors, ByKey;
    if Preflight.TotalInputs(docs) <= Preflight.MAX_INPUTS {
      DocumentsCount(ByKey(docs), docs, |docs|);
      assert docs[..|docs|] == docs;
    }
  }

  lemma {:induction false} EntriesWeaker(summaries: seq<Summary>, origins: seq<Origin>)
    ensures EntriesSound(summaries, origins, true) ==> EntriesSound(summaries, origins, false)
  {
    hide CountIn, PlanCheck.ValidPosition, AllDifferent;
  }

  lemma {:induction false} FreeIsFree(selected: seq<Selected>, apiOnly: bool)
    ensures InterfaceFree(selected, apiOnly, |selected|) <==> RefusedInterfaces(apiOnly, selected) == 0
    decreases |selected|
  {
    if apiOnly && selected != [] {
      var front := selected[..|selected| - 1];
      FreeIsFree(front, apiOnly);
      assert forall i {:trigger selected[i]} :: 0 <= i < |front| ==> selected[i] == front[i];
    }
  }

  lemma {:induction false} LocatedChecked(selected: seq<Selected>, namespace: string, summaries: seq<Summary>)
    requires Located(summaries, DocumentsOf(selected))
    ensures Located(summaries, DocumentsOf(Checked(selected, namespace)))
  {
    hide PlanCheck.ValidPosition, Resolved;
    var docs := DocumentsOf(Checked(selected, namespace));
    forall d {:trigger d.origin} | d in docs
      ensures PlanCheck.ValidPosition(Reading.Counts(summaries), d.origin)
    {
      var i :| 0 <= i < |docs| && docs[i] == d;
      var e := DocumentsOf(selected)[i];
      assert e in DocumentsOf(selected) && e.origin == d.origin;
    }
  }

  lemma {:induction false} NotedGraph(summaries: seq<Summary>, beforeD: seq<Diagnostic>, afterD: seq<Diagnostic>,
                                      added: seq<Finding>, documents: seq<Document>, failure: Origin,
                                      docs: seq<Document>)
    requires Noted(summaries, beforeD, [], documents, failure) && Placed(beforeD, afterD, documents, failure)
    requires Located(summaries, docs) && Preflight.Adds(docs, added)
    ensures Noted(summaries, afterD, added, documents, failure)
  {
    hide Noted, Placed, Located, Preflight.Adds;
    GraphFindable(summaries, docs, added);
    NotedMore(summaries, beforeD, afterD, [], added, documents, failure);
    assert [] + added == added;
  }

  /** A complete report: its plan is sound and every product has a descriptor and a feature list. */
  lemma {:induction false} CompleteIsSound(selected: seq<Selected>, namespace: string, apiOnly: bool, report: Report,
                                           v: Evaluation)
    requires report.Valid() && report.complete && report.valid
    requires Noted(v.summaries, report.details, report.findings, report.documents, report.failure)
    requires 1 <= |selected| <= Reading.MAX_PRODUCTS
    requires Covers(v.summaries, Origins(selected)) && SummariesSound(v.summaries, true)
    requires Admissible(selected, namespace, apiOnly, |selected|)
    requires EntriesSound(v.summaries, Positions(v.entries), true)
    requires Listing(Origins(selected), Checked(selected, namespace), |selected|, v.entries, true)
    requires v.descriptors == Previews(Checked(selected, namespace)) && v.plan.Some?
    requires forall r :: PlanAccepted.Published(DocumentsOf(Checked(selected, namespace)), r) ==>
               PlanCheck.PlanSound(r, v.plan.value)
    ensures Sound(v, report.valid, report.complete, report.details)
  {
    hide *;
    NotedIs(v.summaries, report.details, report.findings, report.documents, report.failure);
    DetailsAreSound(report, v.summaries);
    CoversTotal(v.summaries, Origins(selected));
    ReportPublishes(selected, namespace, apiOnly, v.summaries, v.entries);
    ListingLists(Origins(selected), Checked(selected, namespace), |selected|, v.entries, true);
    ListingCount(Origins(selected), Checked(selected, namespace), v.entries);
    PlanReadyIs(v);
    SoundIs(v, report.valid, report.complete, report.details);
  }

  lemma {:induction false} NotedIs(summaries: seq<Summary>, details: seq<Diagnostic>, findings: seq<Finding>,
                                   documents: seq<Document>, failure: Origin)
    requires Noted(summaries, details, findings, documents, failure)
    ensures Placeable(summaries, details) && AllFindable(summaries, findings)
    ensures Located(summaries, documents)
  {
    hide Placeable, AllFindable, Located, GlobalPosition;
  }

  lemma {:induction false} PlanReadyIs(v: Evaluation)
    requires |v.descriptors| == |v.entries| == Total(v.summaries, ProductsOf) && |v.entries| > 0 && v.plan.Some?
    requires PlanCheck.PlanSound(PlanCheck.Complete(Reading.Counts(v.summaries), FeatureMap(v.entries), v.descriptors),
                                 v.plan.value)
    ensures PlanReady(v)
  {
    hide PlanCheck.PlanSound, FeatureMap, Total;
  }

  lemma {:induction false} SoundIs(v: Evaluation, valid: bool, complete: bool, details: seq<Diagnostic>)
    requires SummariesSound(v.summaries, valid) && EntriesSound(v.summaries, Positions(v.entries), complete)
    requires |v.entries| <= Reading.MAX_PRODUCTS && forall e :: e in v.entries ==> Features.ListSound(e.features)
    requires DetailsSound(v.summaries, details) && (complete ==> valid && PlanReady(v))
    ensures Sound(v, valid, complete, details)
  {
    hide SummariesSound, EntriesSound, DetailsSound, PlanReady, Features.ListSound;
  }

  lemma {:induction false} CoversTotal(summaries: seq<Summary>, origins: seq<Origin>)
    requires Covers(summaries, origins) && SummariesSound(summaries, true)
    ensures |summaries| <= Reading.MAX_SOURCES && Total(summaries, ProductsOf) == |origins|
  {
    hide CountIn, Ascending, PlanCheck.ValidPosition;
  }

  lemma {:induction false} ListingCount(origins: seq<Origin>, docs: seq<Selected>, entries: seq<Entry>)
    requires |origins| == |docs| && Listing(origins, docs, |origins|, entries, true)
    ensures |entries| == |origins|
  {
    hide CountIn, Ascending, Features.ListSound, Features.Elements, Required;
  }

  lemma {:induction false} ReadyIs(selected: seq<Selected>, namespace: string, apiOnly: bool, e: Environment)
    ensures Ready(selected, namespace, apiOnly, e) <==>
            && e.admission && e.fits && Admissible(selected, namespace, apiOnly, |selected|)
            && Preflight.BundleComplete(DocumentsOf(Checked(selected, namespace)))
            && EncodesAgain(Checked(selected, namespace), |selected|)
  {
    hide Admissible, Preflight.BundleComplete;
    var docs := Checked(selected, namespace);
    forall i | 0 <= i < |docs|
      ensures docs[i].declaration.verdict == selected[i].declaration.verdict
    {
    }
  }

  /** The declarations, the graph, the plan and the previews. */
  method CheckDocuments(context: Context, report: Report, selected: seq<Selected>, summaries: seq<Summary>,
                        namespace: string,
                        apiOnly: bool, e: Environment)
    returns (v: Evaluation)
    requires report.Valid() && report.documents == DocumentsOf(selected) && report.failure == Origin(0, 0)
    requires ReadIn(selected, summaries, apiOnly, report.details, report.findings)
    modifies context, report
    ensures report.Valid() && Sound(v, report.valid, report.complete, report.details)
    ensures Noted(v.summaries, report.details, report.findings, report.documents, report.failure)
    ensures report.complete ==> Ready(selected, namespace, apiOnly, e)
    ensures context.deadline.None? ==> (report.complete <==> Ready(selected, namespace, apiOnly, e))
    ensures Tallies(|report.findings|, if e.admission then Complaining(selected, namespace, apiOnly) else 0,
                    context.deadline.None?)
  {
    hide *;
    ghost var was, details := report.findings, report.details;
    ReadIsNoted(selected, summaries, apiOnly, details, was);
    NoEntriesSound(summaries);
    ReadyIs(selected, namespace, apiOnly, e);
    v := Evaluation(summaries, [], [], None);
    if !e.admission {
      UnavailableIsPublic();
      AddError(report, summaries, 0, VALIDATION_UNAVAILABLE, Nowhere);
      ReadCount(selected, summaries, apiOnly, details, was);
      FewTally(|report.findings|, context.deadline.None?);
      IncompleteIsSound(report, v);
      return;
    }
    var docs, entries, stopped := AdmitAll(context, report, selected, namespace, apiOnly);
    v := v.(entries := entries);
    AdmissionDecides(selected, summaries, namespace, apiOnly, details, was, report, docs, entries, stopped);
    NotedSimple(summaries, details, report.details, was, report.findings, report.documents, report.failure);
    ghost var complaints := Complaining(selected, namespace, apiOnly);
    AdmissionTallies(selected, summaries, namespace, apiOnly, details, was, report.findings, docs, entries, stopped);
    SomeTally(complaints, context.deadline.None?);
    if stopped || !report.valid {
      IncompleteIsSound(report, v);
      if stopped {
        LateTallies(|report.findings|, complaints);
      }
      return;
    }
    ghost var reached := report.details;
    var bundle := DocumentsOf(docs);
    var plan := PlanAccepted.PlanBundle(report, bundle, context.Left());
    v := v.(plan := plan);
    CheckedNoted(selected, namespace, summaries, reached, report);
    PlanAccepted.ReportComplete(report);
    GraphCount(bundle, report.findings);
    FewTally(|report.findings|, context.deadline.None?);
    if !(report.valid && report.complete) {
      IncompleteIsSound(report, v);
      return;
    }
    AdmissibleIsAdmitted(selected, namespace, apiOnly);
    var descriptors := EncodeAll(report, summaries, docs);
    v := v.(descriptors := descriptors);
    if !e.fits {
      v := v.(descriptors := []);
      LimitIsPublic();
      AddError(report, summaries, 0, PREVIEW_LIMIT, Nowhere);
    }
    FewTally(|report.findings|, context.deadline.None?);
    if report.complete {
      CompleteIsSound(selected, namespace, apiOnly, report, v);
    } else {
      IncompleteIsSound(report, v);
    }
  }

  lemma {:induction false} CheckedNoted(selected: seq<Selected>, namespace: string, summaries: seq<Summary>,
                                        before: seq<Diagnostic>, report: Report)
    requires Noted(summaries, before, [], report.documents, report.failure) && report.documents == DocumentsOf(selected)
    requires Placed(before, report.details, report.documents, report.failure)
    requires Preflight.Adds(DocumentsOf(Checked(selected, namespace)), report.findings)
    ensures Noted(summaries, report.details, report.findings, report.documents, report.failure)
  {
    hide *;
    NotedIs(summaries, before, [], report.documents, report.failure);
    LocatedChecked(selected, namespace, summaries);
    NotedGraph(summaries, before, report.details, report.findings, report.documents, report.failure,
               DocumentsOf(Checked(selected, namespace)));
  }

  // ---------------------------------------------------------------- the whole check

  /** How many findings a selection calls for before its graph is checked, if the check gets that far. */
  ghost function Objections(sources: seq<Source>, namespace: string, apiOnly: bool, e: Environment): nat
  {
    if (namespace == "" || DnsLabel(namespace)) && Selectable(sources) && e.admission then
      Complaining(AllSelections(sources, |sources|), namespace, apiOnly)
    else 0
  }

  lemma {:induction false} ObjectionsAre(sources: seq<Source>, namespace: string, apiOnly: bool, e: Environment)
    ensures Objections(sources, namespace, apiOnly, e) ==
            if (namespace == "" || DnsLabel(namespace)) && Selectable(sources) && e.admission then
              Complaining(AllSelections(sources, |sources|), namespace, apiOnly)
            else 0
  {
  }

  lemma {:induction false} ReadLimit()
    ensures Reading.MAX_PRODUCTS + 1 == 257
  {
  }

  lemma {:induction false} EarlyTallies(found: nat, complaints: nat, timely: bool)
    requires found <= 260 && (timely ==> complaints == 0)
    ensures Tallies(found, complaints, timely)
  {
  }

  /**
   Checks a selection. The report is complete only when the selection can be read and published, and without a
   deadline exactly then.
   */
  method CheckSelected(context: Context, sources: seq<Source>, namespace: string, apiOnly: bool, e: Environment)
    returns (report: Report, v: Evaluation)
    modifies context
    ensures fresh(report) && report.Valid() && Sound(v, report.valid, report.complete, report.details)
    ensures Noted(v.summaries, report.details, report.findings, report.documents, report.failure)
    ensures report.complete ==> Publishes(sources, namespace, apiOnly, e)
    ensures context.deadline.None? ==> (report.complete <==> Publishes(sources, namespace, apiOnly, e))
    ensures Tallies(|report.findings|, Objections(sources, namespace, apiOnly, e), context.deadline.None?)
  {
    hide *;
    ObjectionsAre(sources, namespace, apiOnly, e);
    report := new Report();
    PublishesIs(sources, namespace, apiOnly, e);
    v := Evaluation([], [], [], None);
    NothingNoted(report);
    NoEntriesSound([]);
    var late := context.Expired();
    if late {
      ValidationLimitIsPublic();
      AddError(report, [], 0, "ValidationLimit", Nowhere);
      EarlyTallies(|report.findings|, Objections(sources, namespace, apiOnly, e), context.deadline.None?);
      IncompleteIsSound(report, v);
      return;
    }
    if namespace != "" && !DnsLabel(namespace) {
      NamespaceIsPublic();
      AddError(report, [], 0, INVALID_NAMESPACE, At("/metadata/namespace"));
      EarlyTallies(|report.findings|, Objections(sources, namespace, apiOnly, e), context.deadline.None?);
      IncompleteIsSound(report, v);
      return;
    }
    var selected, summaries, code, number, failure := ReadSelected(context, report, sources, apiOnly);
    v := Evaluation(summaries, [], [], None);
    NoEntriesSound(summaries);
    Record(report, DocumentsOf(selected), failure);
    if code != "" {
      StoppedIsNoted(report, summaries, selected, code, failure);
      AddError(report, summaries, number, code, Nowhere);
      ReadLimit();
      EarlyTallies(|report.findings|, Objections(sources, namespace, apiOnly, e), context.deadline.None?);
      IncompleteIsSound(report, v);
      return;
    }
    CompleteIsRead(report, sources, selected, summaries, apiOnly);
    v := CheckDocuments(context, report, selected, summaries, namespace, apiOnly, e);
  }

  /** Records what was read, and where reading failed. */
  method Record(report: Report, documents: seq<Document>, failure: Origin)
    requires report.Valid()
    modifies report
    ensures report.Valid() && report.documents == documents && report.failure == failure
    ensures report.findings == old(report.findings) && report.details == old(report.details)
  {
    report.documents, report.failure := documents, failure;
  }

  lemma {:induction false} NothingNoted(report: Report)
    requires report.Valid() && report.findings == [] && report.documents == [] && report.failure == Origin(0, 0)
    ensures Noted([], report.details, report.findings, report.documents, report.failure)
    ensures SummariesSound([], false) && 0 <= Reading.MAX_PRODUCTS
  {
  }

  lemma {:induction false} PublishesIs(sources: seq<Source>, namespace: string, apiOnly: bool, e: Environment)
    ensures Publishes(sources, namespace, apiOnly, e) <==>
            && (namespace == "" || DnsLabel(namespace)) && Selectable(sources)
            && Ready(AllSelections(sources, |sources|), namespace, apiOnly, e)
  {
  }

  lemma {:induction false} StoppedIsNoted(report: Report, summaries: seq<Summary>, selected: seq<Selected>,
                                          code: string,
                                          failure: Origin)
    requires Stopped(summaries, selected, code, failure) && report.documents == DocumentsOf(selected) &&
             report.failure == failure
    requires Interfaces(summaries, report.details, report.findings)
    ensures Noted(summaries, report.details, report.findings, report.documents, report.failure)
    ensures PublicCode(code) && SummariesSound(summaries, false)
  {
    InterfaceIsPublic();
    hide SummariesSound, PublicCode, PlanCheck.ValidPosition, GlobalPosition;
  }

  lemma {:induction false} CompleteIsRead(report: Report, sources: seq<Source>, selected: seq<Selected>,
                                          summaries: seq<Summary>,
                                          apiOnly: bool)
    requires Reading.Complete(sources, summaries, selected) && Interfaces(summaries, report.details, report.findings)
    requires |report.findings| == RefusedInterfaces(apiOnly, selected)
    ensures ReadIn(selected, summaries, apiOnly, report.details, report.findings)
    ensures selected == AllSelections(sources, |sources|) && Selectable(sources)
  {
    hide SummariesSound, Covers, Interfaces, RefusedInterfaces, AllSelections, Legible;
  }

  function Count(summaries: seq<Summary>): (n: nat)
    ensures n == Total(summaries, ProductsOf)
  {
    Total(summaries, ProductsOf)
  }

  /** The public report of an evaluation, without its plan and descriptors unless it is complete. */
  function Assembled(v: Evaluation, valid: bool, complete: bool, required: seq<string>, details: seq<Diagnostic>,
                     counts: Counts)
    : BundleReport
  {
    BundleReport(valid, complete, Count(v.summaries), v.summaries, required, v.entries, details, counts,
                 if valid && complete then v.descriptors else [], if valid && complete then v.plan else None)
  }

  /** The reader accepts a published report exactly up to its own bound on the counters. */
  lemma {:induction false} AssembledIsSound(report: Report, v: Evaluation, required: seq<string>)
    requires report.Valid() && Sound(v, report.valid, report.complete, report.details)
    requires Features.Elements(required) == Features.Union(Lists(v.entries)) && Features.Increasing(required)
    ensures ReportSound(Assembled(v, report.valid, report.complete, required, report.details, report.counts)) <==>
            report.counts.total <= MAX_COUNT
  {
    hide *;
    CountersAccepted(report);
    TotalIs(report);
    SoundParts(v, report.valid, report.complete, report.details);
    Features.UnionIsSound(required, Lists(v.entries));
    AssembledParts(v, report.valid, report.complete, required, report.details, report.counts);
  }

  lemma {:induction false} TotalIs(report: Report)
    requires report.Valid()
    ensures report.counts.total == |report.findings| && (report.complete ==> report.counts.total == 0)
  {
  }

  lemma {:induction false} SoundParts(v: Evaluation, valid: bool, complete: bool, details: seq<Diagnostic>)
    requires Sound(v, valid, complete, details)
    ensures SummariesSound(v.summaries, valid) && EntriesSound(v.summaries, Positions(v.entries), complete)
    ensures DetailsSound(v.summaries, details) && (complete ==> valid && PlanReady(v))
    ensures |Lists(v.entries)| <= Features.MAX_PRODUCTS
    ensures forall i {:trigger Lists(v.entries)[i]} :: 0 <= i < |Lists(v.entries)| ==>
              Features.ListSound(Lists(v.entries)[i])
  {
    hide SummariesSound, EntriesSound, DetailsSound, PlanReady, Features.ListSound;
    forall i {:trigger Lists(v.entries)[i]} | 0 <= i < |Lists(v.entries)|
      ensures Features.ListSound(Lists(v.entries)[i])
    {
      assert v.entries[i] in v.entries;
    }
  }

  lemma {:induction false} AssembledParts(v: Evaluation, valid: bool, complete: bool, required: seq<string>,
                                          details: seq<Diagnostic>, counts: Counts)
    requires SummariesSound(v.summaries, valid) && EntriesSound(v.summaries, Positions(v.entries), complete)
    requires DetailsSound(v.summaries, details) && (complete ==> valid && PlanReady(v))
    requires Features.FeaturesSound(required, Lists(v.entries))
    ensures ReportSound(Assembled(v, valid, complete, required, details, counts)) <==>
              CountsAccepted(valid, complete, counts, details)
  {
    hide SummariesSound, EntriesSound, DetailsSound, CountsAccepted, Features.FeaturesSound, PlanCheck.PlanSound,
         FeatureMap, Total;
  }

  /** Publishes an evaluation; a report too large to publish gets an error instead of its plan and previews. */
  method Publish(report: Report, v: Evaluation, e: Environment) returns (r: BundleReport)
    requires report.Valid() && Sound(v, report.valid, report.complete, report.details)
    requires Noted(v.summaries, report.details, report.findings, report.documents, report.failure)
    modifies report
    ensures ReportSound(r) <==> r.counts.total <= MAX_COUNT
    ensures r.complete <==> old(report.complete) && e.bundleFits
    ensures r.complete ==> r.counts.total == 0
    ensures r.counts.total == |old(report.findings)| + (if e.bundleFits then 0 else 1)
  {
    hide *;
    SoundParts(v, report.valid, report.complete, report.details);
    ListsAre(v, report.valid, report.complete, report.details);
    var required := Features.RequiredFeatures(Lists(v.entries));
    r := Publication(report, v, required);
    if !e.bundleFits {
      LimitIsPublic();
      SoundSources(v, report.valid, report.complete, report.details);
      AddError(report, v.summaries, 0, PREVIEW_LIMIT, Nowhere);
      IncompleteIsSound(report, v);
      r := Publication(report, v, required);
    }
  }

  /** The adapter itself. */
  method Publication(report: Report, v: Evaluation, required: seq<string>) returns (r: BundleReport)
    requires report.Valid() && Sound(v, report.valid, report.complete, report.details)
    requires Features.Elements(required) == Features.Union(Lists(v.entries)) && Features.Increasing(required)
    ensures ReportSound(r) <==> r.counts.total <= MAX_COUNT
    ensures r.complete == report.complete && (r.complete ==> r.counts.total == 0)
    ensures r.counts.total == |report.findings|
  {
    TotalIs(report);
    AssembledIsSound(report, v, required);
    r := Assembled(v, report.valid, report.complete, required, report.details, report.counts);
    hide ReportSound;
  }

  lemma {:induction false} SoundSources(v: Evaluation, valid: bool, complete: bool, details: seq<Diagnostic>)
    requires Sound(v, valid, complete, details)
    ensures SummariesSound(v.summaries, false) && EntriesSound(v.summaries, Positions(v.entries), false)
  {
    hide DetailsSound, PlanReady, Features.ListSound, ValidSummary, CountIn, PlanCheck.ValidPosition, AllDifferent;
  }

  lemma {:induction false} ListsAre(v: Evaluation, valid: bool, complete: bool, details: seq<Diagnostic>)
    requires Sound(v, valid, complete, details)
    ensures |v.entries| <= Reading.MAX_PRODUCTS && forall e :: e in v.entries ==> Features.ListSound(e.features)
  {
    hide SummariesSound, EntriesSound, DetailsSound, PlanReady, Features.ListSound;
  }

  lemma {:induction false} TallyDecides(found: nat, complaints: nat, timely: bool, more: nat)
    requires Tallies(found, complaints, timely) && more <= 1
    ensures timely ==> (found + more <= MAX_COUNT <==> complaints + more <= MAX_COUNT)
    ensures complaints + FEW < MAX_COUNT ==> found + more <= MAX_COUNT
  {
  }

  /**
   The offline check end to end, with or without a deadline and with every outcome of the validators. Without a
   deadline the reader accepts the report exactly when the selection calls for at most 2^20 findings, and the report is
   complete exactly when the selection can be read and published and fits. A complete report is always accepted.
   */
  method CheckBundle(context: Context, sources: seq<Source>, namespace: string, apiOnly: bool, e: Environment)
    returns (r: BundleReport)
    modifies context
    ensures context.deadline.None? ==>
              (ReportSound(r) <==>
                 Objections(sources, namespace, apiOnly, e) + (if e.bundleFits then 0 else 1) <= MAX_COUNT)
    ensures Objections(sources, namespace, apiOnly, e) + FEW < MAX_COUNT ==> ReportSound(r)
    ensures ReportSound(r) <==> r.counts.total <= MAX_COUNT
    ensures r.complete ==> Publishes(sources, namespace, apiOnly, e) && e.bundleFits && ReportSound(r)
    ensures context.deadline.None? ==> (r.complete <==> Publishes(sources, namespace, apiOnly, e) && e.bundleFits)
  {
    hide Publishes, Sound, Noted, Report.Valid, SummariesSound, EntriesSound, DetailsSound, CountsAccepted, PlanPart;
    hide Objections, Tallies, ReportSound;
    var report, v := CheckSelected(context, sources, namespace, apiOnly, e);
    TallyDecides(|report.findings|, Objections(sources, namespace, apiOnly, e), context.deadline.None?,
                 if e.bundleFits then 0 else 1);
    r := Publish(report, v, e);
  }

  // ---------------------------------------------------------------- the bound on counters

  /** A validator that reports every declaration's complaints and contract checks within the limit. */
  ghost predicate Moderate(d: Declaration, each: nat)
  {
    |d.verdict.metadata| <= each && |d.verdict.schema| <= each && |d.checks| <= each
  }

  lemma {:induction false} ChecksCount(number: nat, d: Declaration, n: nat)
    requires n <= |d.checks|
    ensures |UndeclaredChecks(number, d, n)| <= n
    decreases n
  {
    hide OutputNames;
    if n > 0 {
      ChecksCount(number, d, n - 1);
    }
  }

  lemma {:induction false} AdmissionCount(number: nat, d: Declaration, apiOnly: bool, names: set<string>,
                                          ids: set<string>,
                                          each: nat)
    requires Moderate(d, each) && each >= 1
    ensures |Admission(number, d, apiOnly, names, ids).findings| <= each
  {
    ComplaintsFound(number, d.verdict.metadata, |d.verdict.metadata|);
    ComplaintsFound(number, d.verdict.schema, |d.verdict.schema|);
    ChecksCount(number, d, |d.checks|);
    hide DnsLabel, DnsSubdomain, Taken, UndeclaredChecks;
  }

  lemma {:induction false} AdmissionsCount(selected: seq<Selected>, namespace: string, apiOnly: bool, n: nat, each: nat)
    requires n <= |selected| && each >= 1
    requires forall i {:trigger selected[i]} :: 0 <= i < n ==> Moderate(selected[i].declaration, each)
    ensures |Admissions(selected, namespace, apiOnly, n).0| <= n * each
    decreases n
  {
    hide Admission, Claims;
    if n > 0 {
      AdmissionsCount(selected, namespace, apiOnly, n - 1, each);
      var (_, names, ids) := Admissions(selected, namespace, apiOnly, n - 1);
      assert Moderate(selected[n - 1].declaration, each);
      AdmissionCount(n, Resolved(selected, namespace, n - 1), apiOnly, names, ids, each);
    }
  }

  /** Up to 4,000 complaints about every declaration are accepted in every selection. */
  lemma {:induction false} ModerateIsAccepted(sources: seq<Source>, namespace: string, apiOnly: bool, e: Environment)
    requires forall s :: s in AllSelections(sources, |sources|) ==> Moderate(s.declaration, 4000)
    ensures Objections(sources, namespace, apiOnly, e) + FEW < MAX_COUNT
  {
    hide Moderate, AllSelections, Selectable, Admissions, DnsLabel;
    var selected := AllSelections(sources, |sources|);
    if Selectable(sources) {
      SelectableCount(sources);
      AdmissionsCount(selected, namespace, apiOnly, |selected|, 4000);
    }
  }

  const CROWD := 524_289

  /**
   A product with 524,289 empty inputs, about 1.5 MiB of YAML; a name and a reference are missing from each of them.
   */
  function Crowded(): Declaration
  {
    Declaration(
      Product(Key("ns", "crowded"), "v1.0.0", seq(CROWD, _ => Input("", Reference("", "", ""), None)),
              [Output("out", "OpenAPI")], Declares(false, false, false, false), 1, false, NoStatus),
      "urn:crowded", None, [], false,
      Verdict([], true, seq(2 * CROWD, _ => Complaint("RequiredField", "/spec/inputs")), true, true, true, true))
  }

  /**
   A selection the reader's bound excludes: one product with more empty inputs than half the bound, on which the
   schema validator reports both missing fields of every input.
   */
  lemma {:induction false} PastTheBound(namespace: string, apiOnly: bool, e: Environment) returns (sources: seq<Source>)
    requires e.admission && (namespace == "" || DnsLabel(namespace))
    ensures Objections(sources, namespace, apiOnly, e) > MAX_COUNT
  {
    var d := Crowded();
    sources := [Readable([Declared(d)])];
    CrowdedSelection(d, sources);
    CrowdedFindings(d, apiOnly);
    var selected := AllSelections(sources, 1);
    hide Crowded, Admission, AllSelections, Selectable, Admissible;
    OneAdmission(selected, namespace, apiOnly);
  }

  lemma {:induction false} CrowdedSelection(d: Declaration, sources: seq<Source>)
    requires sources == [Readable([Declared(d)])]
    ensures AllSelections(sources, 1) == [Selected(Origin(1, 1), d)] && Selectable(sources)
  {
    var input := [Declared(d)];
    NextSelection(1, input, 0);
    assert AllSelections(sources, 0) == [] && PhysicalIn(sources, 0) == 0;
    assert AllSelections(sources, 1) == [] + Selections(1, input, 1);
    assert PhysicalIn(sources, 1) == 1;
  }

  lemma {:induction false} CrowdedFindings(d: Declaration, apiOnly: bool)
    requires d == Crowded()
    ensures d.product.key.ns != "" && |Admission(1, d, apiOnly, {}, {}).findings| > MAX_COUNT
  {
    var name := "crowded";
    assert forall i :: 0 <= i < |name| ==> SubdomainAt(name, i);
    assert |d.verdict.schema| == 2 * CROWD;
    ComplaintsFound(1, d.verdict.schema, |d.verdict.schema|);
    hide Complaints;
  }

  lemma {:induction false} OneAdmission(selected: seq<Selected>, namespace: string, apiOnly: bool)
    requires |selected| == 1 && selected[0].declaration.product.key.ns != ""
    ensures |Admissions(selected, namespace, apiOnly, |selected|).0| ==
            |Admission(1, selected[0].declaration, apiOnly, {}, {}).findings|
  {
    NoAdmission(selected, namespace, apiOnly);
    NextAdmission(selected, namespace, apiOnly, 0, [], {}, {});
    hide Admission, Admissions, Claims;
  }

  /** Wherever a published selection is deployed, the controller accepts every product of it. */
  lemma {:induction false} PublishedHolds(sources: seq<Source>, namespace: string, apiOnly: bool, e: Environment,
                                          s: Store,
                                          d: Document)
    requires Publishes(sources, namespace, apiOnly, e) && WellKeyed(s)
    requires var docs := DocumentsOf(Checked(AllSelections(sources, |sources|), namespace));
             Deployment.Deployed(docs, s) && d in docs
    ensures d.product.key in s
    ensures CompositionTheorems.Check(Composition.Reader(s, {}, None, []), s[d.product.key]).1 == NoReason
  {
    hide *;
    var selected := AllSelections(sources, |sources|);
    PublishesIs(sources, namespace, apiOnly, e);
    ReadyIs(selected, namespace, apiOnly, e);
    SelectionsAscend(sources, |sources|);
    SelectableCount(sources);
    AdmissibleIsAdmitted(selected, namespace, apiOnly);
    Deployment.OfflineVerdictHolds(DocumentsOf(Checked(selected, namespace)), s, d);
  }

  lemma {:induction false} SelectableCount(sources: seq<Source>)
    requires Selectable(sources)
    ensures 1 <= |AllSelections(sources, |sources|)| <= Reading.MAX_PRODUCTS
  {
    hide AllSelections, PhysicalIn, Decodes;
  }

  /** Declarations are selected in reading order. */
  lemma {:induction false} SelectionsAscend(sources: seq<Source>, n: nat)
    requires n <= |sources|
    ensures Ascending(Origins(AllSelections(sources, n)))
    ensures forall o :: o in Origins(AllSelections(sources, n)) ==> o.source <= n
    decreases n
  {
    hide Selections;
    if n > 0 {
      var input := InputOf(sources[n - 1]);
      var before, more := AllSelections(sources, n - 1), Selections(n, input, |input|);
      SelectionsAscend(sources, n - 1);
      SelectionsFrom(n, input, |input|);
      OriginsJoin(before, more);
      SelectionOrigins(more, n, |input|);
      var origins := Origins(before) + Origins(more);
      forall i, j | 0 <= i < j < |origins|
        ensures Reading.Before(origins[i], origins[j])
      {
        if i < |before| <= j {
          assert origins[i] in Origins(before) && origins[j] in Origins(more);
        }
      }
    }
  }
}
