/** The public bundle report, and the browser's check of a whole report. */
module ReportCheck {
  import opened Products
  import opened Bundle
  import opened Findings
  import opened Reading
  import Features
  import Plan
  import PlanCheck
  import Witness

  const MAX_STEPS := 64

  /** The features required by the declaration at one position. */
  datatype Entry = Entry(origin: Origin, features: seq<string>)

  datatype BundleReport = BundleReport(
    valid: bool,
    complete: bool,
    products: nat,
    sources: seq<Summary>,
    required: seq<string>,
    features: seq<Entry>,
    details: seq<Diagnostic>,
    counts: Counts,
    descriptors: seq<PlanCheck.Descriptor>,
    plan: Option<Plan.ReviewPlan>)

  // ---------------------------------------------------------------- what an accepted report is

  function Positions(entries: seq<Entry>): (origins: seq<Origin>)
    ensures |origins| == |entries|
    ensures forall i {:trigger origins[i]} {:trigger entries[i]} :: 0 <= i < |origins| ==>
              origins[i] == entries[i].origin
  {
    seq(|entries|, i requires 0 <= i < |entries| => entries[i].origin)
  }

  function Lists(entries: seq<Entry>): (lists: seq<seq<string>>)
    ensures |lists| == |entries|
    ensures forall i {:trigger lists[i]} {:trigger entries[i]} :: 0 <= i < |lists| ==> lists[i] == entries[i].features
  {
    seq(|entries|, i requires 0 <= i < |entries| => entries[i].features)
  }

  /** The features by position. */
  function FeatureMap(entries: seq<Entry>): map<Origin, set<string>>
  {
    if entries == [] then map[]
    else
      var last := entries[|entries| - 1];
      FeatureMap(entries[..|entries| - 1])[last.origin := set f | f in last.features]
  }

  ghost predicate AllDifferent(origins: seq<Origin>)
  {
    forall i, j :: 0 <= i < j < |origins| ==> origins[i] != origins[j]
  }

  /** Every list of features stands at a document of its own; a complete report has one for every product. */
  ghost predicate EntriesSound(summaries: seq<Summary>, origins: seq<Origin>, complete: bool)
  {
    && (forall o :: o in origins ==> PlanCheck.ValidPosition(Reading.Counts(summaries), o)) && AllDifferent(origins)
    && forall i {:trigger summaries[i]} :: 0 <= i < |summaries| ==>
         CountIn(origins, i + 1) <= summaries[i].products &&
         (complete ==> CountIn(origins, i + 1) == summaries[i].products)
  }

  /** A displayed finding has a public code and points into the selection, and so does every step of its witness. */
  ghost predicate DetailSound(summaries: seq<Summary>, d: Diagnostic)
  {
    && GlobalPosition(summaries, d.origin) && PublicCode(d.finding.code) && |d.finding.steps| <= MAX_STEPS
    && forall s :: s in d.finding.steps ==> PlanCheck.ValidPosition(Reading.Counts(summaries), s.origin)
  }

  ghost predicate DetailsSound(summaries: seq<Summary>, details: seq<Diagnostic>)
  {
    forall d :: d in details ==> DetailSound(summaries, d)
  }

  /** The parts of a complete report its plan is checked against. */
  function CompleteOf(r: BundleReport): PlanCheck.Complete
  {
    PlanCheck.Complete(Reading.Counts(r.sources), FeatureMap(r.features), r.descriptors)
  }

  ghost predicate PlanPart(r: BundleReport)
  {
    if r.complete then
      && r.products > 0 && |r.descriptors| == r.products && |r.features| == r.products
      && r.plan.Some? && PlanCheck.PlanSound(CompleteOf(r), r.plan.value)
    else r.descriptors == [] && r.plan.None?
  }

  /** A report without contradiction between its parts. */
  ghost predicate ReportSound(r: BundleReport)
  {
    && (r.complete ==> r.valid)
    && SummariesSound(r.sources, r.valid) && r.products == Total(r.sources, ProductsOf)
    && EntriesSound(r.sources, Positions(r.features), r.complete)
    && Features.FeaturesSound(r.required, Lists(r.features))
    && CountsAccepted(r.valid, r.complete, r.counts, r.details)
    && DetailsSound(r.sources, r.details)
    && PlanPart(r)
  }

  // ---------------------------------------------------------------- the check

  lemma {:induction false} NextTotal(summaries: seq<Summary>, n: nat, f: Summary -> nat)
    requires n < |summaries|
    ensures Total(summaries[..n + 1], f) == Total(summaries[..n], f) + f(summaries[n])
    ensures Total(summaries[..n], f) <= Total(summaries, f)
    ensures summaries[..|summaries|] == summaries
    decreases |summaries| - n
  {
    var more := summaries[..n + 1];
    assert more[..|more| - 1] == summaries[..n];
    assert summaries[..|summaries|] == summaries;
    if n + 1 < |summaries| {
      NextTotal(summaries, n + 1, f);
    }
  }

  /** Numbers, counts and totals of the sources. */
  method CheckSources(sources: seq<Summary>, products: nat, valid: bool) returns (ok: bool)
    ensures ok <==> SummariesSound(sources, valid) && products == Total(sources, ProductsOf)
  {
    hide Total, ValidSummary;
    if products > MAX_PRODUCTS || |sources| > MAX_SOURCES {
      return false;
    }
    var totalProducts, documents := 0, 0;
    NoTotal(sources);
    for index := 0 to |sources|
      invariant forall i {:trigger sources[i]} :: 0 <= i < index ==> ValidSummary(sources[i], i)
      invariant totalProducts == Total(sources[..index], ProductsOf) && documents == Total(sources[..index], Documents)
    {
      NextTotal(sources, index, ProductsOf);
      NextTotal(sources, index, Documents);
      if !ValidSummary(sources[index], index) {
        return false;
      }
      documents := documents + sources[index].documents;
      totalProducts := totalProducts + sources[index].products;
    }
    assert sources[..|sources|] == sources;
    ok := totalProducts == products && documents <= (if valid then MAX_PHYSICAL else MAX_PHYSICAL + 1);
  }

  lemma {:induction false} NoTotal(summaries: seq<Summary>)
    ensures Total(summaries[..0], ProductsOf) == 0 && Total(summaries[..0], Documents) == 0
  {
  }

  lemma {:induction false} NextCount(origins: seq<Origin>, n: nat, source: nat)
    requires n < |origins|
    ensures CountIn(origins[..n + 1], source) == CountIn(origins[..n], source) +
            (if origins[n].source == source then 1 else 0)
  {
    var more := origins[..n + 1];
    assert more[..|more| - 1] == origins[..n];
  }

  /** The occurrences of each source so far. */
  ghost predicate Tabulated(origins: seq<Origin>, counts: map<nat, nat>)
  {
    forall s: nat :: (if s in counts then counts[s] else 0) == CountIn(origins, s)
  }

  lemma {:induction false} TabulatedMore(origins: seq<Origin>, n: nat, counts: map<nat, nat>)
    requires n < |origins| && Tabulated(origins[..n], counts)
    ensures var s := origins[n].source;
            Tabulated(origins[..n + 1], counts[s := (if s in counts then counts[s] else 0) + 1])
  {
    hide CountIn;
    forall s: nat
      ensures CountIn(origins[..n + 1], s) == CountIn(origins[..n], s) + (if origins[n].source == s then 1 else 0)
    {
      NextCount(origins, n, s);
    }
  }

  /** The positions of the feature lists. */
  method CheckEntries(sources: seq<Summary>, entries: seq<Entry>, complete: bool) returns (ok: bool)
    ensures ok <==> EntriesSound(sources, Positions(entries), complete)
  {
    hide CountIn, Tabulated;
    ghost var origins := Positions(entries);
    var positions: set<Origin> := {};
    var counts: map<nat, nat> := map[];
    NothingTabulated(origins);
    for index := 0 to |entries|
      invariant forall i {:trigger origins[i]} :: 0 <= i < index ==>
                  PlanCheck.ValidPosition(Reading.Counts(sources), origins[i])
      invariant forall i, j :: 0 <= i < j < index ==> origins[i] != origins[j]
      invariant forall o :: o in positions <==> exists i :: 0 <= i < index && origins[i] == o
      invariant Tabulated(origins[..index], counts)
    {
      var at := entries[index].origin;
      assert origins[index] == at && at in origins;
      if !PlanCheck.ValidPosition(Reading.Counts(sources), at) || at in positions {
        return false;
      }
      TabulatedMore(origins, index, counts);
      positions := positions + {at};
      counts := counts[at.source := (if at.source in counts then counts[at.source] else 0) + 1];
    }
    assert origins[..|origins|] == origins;
    for index := 0 to |sources|
      invariant forall i {:trigger sources[i]} :: 0 <= i < index ==>
                  CountIn(origins, i + 1) <= sources[i].products &&
                  (complete ==> CountIn(origins, i + 1) == sources[i].products)
    {
      var count := if index + 1 in counts then counts[index + 1] else 0;
      TabulatedIs(origins, counts, index + 1);
      if count > sources[index].products || (complete && count != sources[index].products) {
        return false;
      }
    }
    ok := true;
  }

  lemma {:induction false} NothingTabulated(origins: seq<Origin>)
    ensures Tabulated(origins[..0], map[])
  {
  }

  lemma {:induction false} TabulatedIs(origins: seq<Origin>, counts: map<nat, nat>, s: nat)
    requires Tabulated(origins, counts)
    ensures (if s in counts then counts[s] else 0) == CountIn(origins, s)
  {
  }

  lemma {:induction false} NextShown(details: seq<Diagnostic>, n: nat)
    requires n < |details|
    ensures CountOf(Displayed(details[..n + 1]), Error) ==
            CountOf(Displayed(details[..n]), Error) + (if details[n].finding.severity == Error then 1 else 0)
    ensures CountOf(Displayed(details[..n + 1]), Warning) ==
            CountOf(Displayed(details[..n]), Warning) + (if details[n].finding.severity == Error then 0 else 1)
  {
    var more := Displayed(details[..n + 1]);
    assert more[..|more| - 1] == Displayed(details[..n]);
  }

  /** The displayed findings, and the counters beside them. */
  method CheckDetails(r: BundleReport) returns (ok: bool)
    ensures ok <==> CountsAccepted(r.valid, r.complete, r.counts, r.details) && DetailsSound(r.sources, r.details)
  {
    hide CountOf, Displayed, DetailSound;
    var details, counts := r.details, r.counts;
    if |details| > MAX_DISPLAYED || counts.total > MAX_COUNT {
      return false;
    }
    var errors, warnings := 0, 0;
    NothingShown(details);
    for index := 0 to |details|
      invariant errors == CountOf(Displayed(details[..index]), Error)
      invariant warnings == CountOf(Displayed(details[..index]), Warning)
      invariant forall i {:trigger details[i]} :: 0 <= i < index ==> DetailSound(r.sources, details[i])
    {
      var sound := CheckDetail(r.sources, details[index]);
      if !sound {
        assert details[index] in details;
        return false;
      }
      NextShown(details, index);
      if details[index].finding.severity == Error {
        errors := errors + 1;
      } else {
        warnings := warnings + 1;
      }
    }
    assert details[..|details|] == details;
    ok := && counts.total == counts.errors + counts.warnings
          && counts.omitted == counts.total - |details|
          && errors <= counts.errors && warnings <= counts.warnings
          && (counts.omitted != 0 || (errors == counts.errors && warnings == counts.warnings))
          && r.valid == (counts.errors == 0) && r.complete == (counts.total == 0);
  }

  lemma {:induction false} NothingShown(details: seq<Diagnostic>)
    ensures CountOf(Displayed(details[..0]), Error) == 0 && CountOf(Displayed(details[..0]), Warning) == 0
  {
  }

  method CheckDetail(sources: seq<Summary>, d: Diagnostic) returns (ok: bool)
    ensures ok <==> DetailSound(sources, d)
  {
    hide PublicCode, PlanCheck.ValidPosition;
    var steps := d.finding.steps;
    if !GlobalPosition(sources, d.origin) || !PublicCode(d.finding.code) || |steps| > MAX_STEPS {
      return false;
    }
    for index := 0 to |steps|
      invariant forall i {:trigger steps[i]} :: 0 <= i < index ==>
                  PlanCheck.ValidPosition(Reading.Counts(sources), steps[i].origin)
    {
      if !PlanCheck.ValidPosition(Reading.Counts(sources), steps[index].origin) {
        assert steps[index] in steps;
        return false;
      }
    }
    ok := true;
  }

  /** The whole check of a decoded report: it accepts exactly the sound ones. */
  method Validate(r: BundleReport) returns (ok: bool)
    ensures ok <==> ReportSound(r)
  {
    hide SummariesSound, Total, EntriesSound, Features.FeaturesSound, CountsAccepted, DetailsSound, PlanCheck.PlanSound,
         CompleteOf;
    if r.complete && !r.valid {
      return false;
    }
    ok := CheckSources(r.sources, r.products, r.valid);
    if !ok {
      return;
    }
    ok := CheckEntries(r.sources, r.features, r.complete);
    if !ok {
      return;
    }
    ok := Features.ValidFeatures(r.required, Lists(r.features));
    if !ok {
      return;
    }
    ok := CheckDetails(r);
    if !ok {
      return;
    }
    if !r.complete {
      return |r.descriptors| == 0 && r.plan.None?;
    }
    if r.products == 0 || |r.descriptors| != r.products || |r.features| != r.products || r.plan.None? {
      return false;
    }
    ok := PlanCheck.ValidPlan(CompleteOf(r), r.plan.value);
  }
}
