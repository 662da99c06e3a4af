/** The findings of an offline check: exact counters over a bounded list of displayed diagnostics. */
module Findings {
  import opened Bundle
  import opened Witness

  const MAX_DISPLAYED := 128
  const MAX_COUNT := 0x10_0000

  datatype Severity = Error | Warning

  /** Where in a declaration a finding points; inputs are counted from 0. */
  datatype Place =
    | Nowhere
    | At(path: string)
    | Inputs
    | ProductRefOf(input: nat)
    | OutputOf(input: nat)
    | ContractOf(input: nat)
    | CheckOf(check: nat)

  /** The fixed codes of findings. */
  predicate PublicCode(c: string)
  {
    || c == "NoProducts" || c == "SourceLimit" || c == "DocumentLimit" || c == "ReadFailed" || c == "InputLimit"
    || c == "ProductLimit" || c == "DepthLimit" || c == "InvalidDocument" || c == "UnsupportedResource"
    || c == "UnknownField" || c == "AdmissionInvalid" || c == "NamespaceRequired" || c == "InvalidNamespace"
    || c == "IdentityConflict" || c == "InvalidPublicMetadata" || c == "InvalidUI" || c == "ContractOutputNotFound"
    || c == "ProducerUnresolved" || c == "OutputNotFound" || c == "ContractIncompatible" || c == "CrossNamespaceInput"
    || c == "CompositionCycle" || c == "CompositionLimit" || c == "ValidationLimit" || c == "ValidationUnavailable"
    || c == "PreviewLimit" || c == "InvalidField" || c == "RequiredField" || c == "DuplicateListItem"
    || c == "CrossFieldInvalid"
  }

  datatype Finding = Finding(document: nat, severity: Severity, code: string, place: Place, steps: seq<Step>,
                             truncated: bool)

  datatype Diagnostic = Diagnostic(origin: Origin, finding: Finding)

  datatype Counts = Counts(total: nat, errors: nat, warnings: nat, omitted: nat)

  function CountOf(findings: seq<Finding>, severity: Severity): nat
  {
    if findings == [] then 0
    else CountOf(findings[..|findings| - 1], severity) +
         (if findings[|findings| - 1].severity == severity then 1 else 0)
  }

  ghost predicate NoErrors(findings: seq<Finding>)
  {
    forall f :: f in findings ==> f.severity != Error
  }

  lemma {:induction false} CountsCover(findings: seq<Finding>)
    ensures CountOf(findings, Error) + CountOf(findings, Warning) == |findings|
    ensures CountOf(findings, Error) == 0 <==> NoErrors(findings)
    decreases |findings|
  {
    if findings != [] {
      var front := findings[..|findings| - 1];
      CountsCover(front);
      assert findings == front + [findings[|findings| - 1]];
    }
  }

  /** A prefix counts no more. */
  lemma {:induction false} PrefixCounts(findings: seq<Finding>, n: nat, severity: Severity)
    requires n <= |findings|
    ensures CountOf(findings[..n], severity) <= CountOf(findings, severity)
    decreases |findings|
  {
    if n < |findings| {
      var front := findings[..|findings| - 1];
      PrefixCounts(front, n, severity);
      assert front[..n] == findings[..n];
    } else {
      assert findings[..n] == findings;
    }
  }

  ghost predicate Counted(counts: Counts, findings: seq<Finding>)
  {
    && counts.total == |findings|
    && counts.errors == CountOf(findings, Error) && counts.warnings == CountOf(findings, Warning)
    && counts.omitted == (if |findings| > MAX_DISPLAYED then |findings| - MAX_DISPLAYED else 0)
  }

  /** The displayed details are the first 128 findings. */
  ghost predicate Shown(details: seq<Diagnostic>, findings: seq<Finding>)
  {
    && |details| == (if |findings| > MAX_DISPLAYED then MAX_DISPLAYED else |findings|)
    && forall i {:trigger details[i]} :: 0 <= i < |details| ==> details[i].finding == findings[i]
  }

  ghost function CountMore(counts: Counts, severity: Severity, full: bool): Counts
  {
    var omitted := counts.omitted + (if full then 1 else 0);
    if severity == Error then Counts(counts.total + 1, counts.errors + 1, counts.warnings, omitted)
    else Counts(counts.total + 1, counts.errors, counts.warnings + 1, omitted)
  }

  ghost function ShowMore(details: seq<Diagnostic>, d: Diagnostic): seq<Diagnostic>
  {
    if |details| >= MAX_DISPLAYED then details else details + [d]
  }

  /** One more finding counts once, under its severity. */
  lemma {:induction false} CountedOneMore(counts: Counts, findings: seq<Finding>, f: Finding)
    requires Counted(counts, findings)
    ensures Counted(CountMore(counts, f.severity, |findings| >= MAX_DISPLAYED), findings + [f])
    ensures NoErrors(findings + [f]) <==> NoErrors(findings) && f.severity != Error
  {
    var all := findings + [f];
    assert all[..|all| - 1] == findings;
    NoErrorsOneMore(findings, f);
    hide NoErrors;
  }

  lemma {:induction false} NoErrorsOneMore(findings: seq<Finding>, f: Finding)
    ensures NoErrors(findings + [f]) <==> NoErrors(findings) && f.severity != Error
  {
  }

  lemma {:induction false} ShownOneMore(details: seq<Diagnostic>, findings: seq<Finding>, d: Diagnostic)
    requires Shown(details, findings)
    ensures |details| >= MAX_DISPLAYED <==> |findings| >= MAX_DISPLAYED
    ensures Shown(ShowMore(details, d), findings + [d.finding])
  {
  }

  /** The position of a numbered document, or the position reading failed at. */
  function OriginOf(documents: seq<Document>, failure: Origin, number: nat): Origin
  {
    if 0 < number <= |documents| then documents[number - 1].origin else failure
  }

  /** Details are only appended, each at the position of its document. */
  ghost predicate Placed(before: seq<Diagnostic>, after: seq<Diagnostic>, documents: seq<Document>, failure: Origin)
  {
    && before <= after
    && forall i {:trigger after[i]} :: |before| <= i < |after| ==>
         after[i].origin == OriginOf(documents, failure, after[i].finding.document)
  }

  lemma {:induction false} PlacedJoins(a: seq<Diagnostic>, b: seq<Diagnostic>, c: seq<Diagnostic>,
                                       documents: seq<Document>,
                                       failure: Origin)
    requires Placed(a, b, documents, failure) && Placed(b, c, documents, failure)
    ensures Placed(a, c, documents, failure)
  {
    hide OriginOf;
  }

  lemma {:induction false} PlacedSame(details: seq<Diagnostic>, documents: seq<Document>, failure: Origin)
    ensures Placed(details, details, documents, failure)
  {
  }

  class Report {
    var documents: seq<Document>
    var failure: Origin
    var valid: bool
    var complete: bool
    var counts: Counts
    var details: seq<Diagnostic>
    /** Everything ever found, in order. */
    ghost var findings: seq<Finding>

    ghost predicate Valid()
      reads this
    {
      && Counted(counts, findings)
      && Shown(details, findings)
      && (valid <==> NoErrors(findings)) && (complete <==> findings == [])
    }

    constructor ()
      ensures Valid() && findings == [] && documents == [] && failure == Origin(0, 0)
    {
      documents, failure := [], Origin(0, 0);
      valid, complete, counts, details := true, true, Counts(0, 0, 0, 0), [];
      findings := [];
    }

    /** Counts every finding before limiting what is displayed. */
    method AddDetail(document: nat, severity: Severity, code: string, place: Place, steps: seq<Step>, truncated: bool)
      requires Valid()
      modifies this
      ensures Valid() && findings == old(findings) + [Finding(document, severity, code, place, steps, truncated)]
      ensures documents == old(documents) && failure == old(failure)
      ensures Placed(old(details), details, documents, failure)
    {
      var finding := Finding(document, severity, code, place, steps, truncated);
      var position := OriginOf(documents, failure, document);
      CountedOneMore(counts, findings, finding);
      ShownOneMore(details, findings, Diagnostic(position, finding));
      ghost var tally := CountMore(counts, severity, |details| >= MAX_DISPLAYED);
      ghost var listed := ShowMore(details, Diagnostic(position, finding));
      hide Counted, Shown, NoErrors, OriginOf;
      findings := findings + [finding];
      if severity == Error {
        valid := false;
        counts := counts.(errors := counts.errors + 1);
      } else {
        counts := counts.(warnings := counts.warnings + 1);
      }
      complete := false;
      counts := counts.(total := counts.total + 1);
      if |details| >= MAX_DISPLAYED {
        counts := counts.(omitted := counts.omitted + 1);
      } else {
        details := details + [Diagnostic(position, finding)];
      }
      assert counts == tally;
      assert details == listed;
    }
  }

  // ---------------------------------------------------------------- the reader of the counters

  /** What the browser's reader demands of the counters and the displayed diagnostics. */
  ghost predicate CountsAccepted(valid: bool, complete: bool, counts: Counts, details: seq<Diagnostic>)
  {
    var shown := Displayed(details);
    && |details| <= MAX_DISPLAYED && counts.total <= MAX_COUNT
    && counts.total == counts.errors + counts.warnings
    && counts.omitted == counts.total - |details|
    && CountOf(shown, Error) <= counts.errors && CountOf(shown, Warning) <= counts.warnings
    && (counts.omitted != 0 || (CountOf(shown, Error) == counts.errors && CountOf(shown, Warning) == counts.warnings))
    && (valid <==> counts.errors == 0) && (complete <==> counts.total == 0)
  }

  function Displayed(details: seq<Diagnostic>): (shown: seq<Finding>)
    ensures |shown| == |details| && forall i :: 0 <= i < |shown| ==> shown[i] == details[i].finding
  {
    seq(|details|, i requires 0 <= i < |details| => details[i].finding)
  }

  /** Whatever was found, in whatever order, the reader accepts the counters exactly up to its own bound on them. */
  lemma {:induction false} CountersAccepted(r: Report)
    requires r.Valid()
    ensures CountsAccepted(r.valid, r.complete, r.counts, r.details) <==> |r.findings| <= MAX_COUNT
  {
    CountsCover(r.findings);
    assert Displayed(r.details) == r.findings[..|r.details|];
    PrefixCounts(r.findings, |r.details|, Error);
    PrefixCounts(r.findings, |r.details|, Warning);
    if r.counts.omitted == 0 {
      assert r.findings[..|r.details|] == r.findings;
    }
  }
}
