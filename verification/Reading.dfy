/** Reading the sources a publisher selects, under limits shared by the whole selection. */
module Reading {
  import opened Products
  import opened Bundle
  import opened Findings
  import opened Declarations
  import PlanCheck

  const MAX_SOURCES := 32
  const MAX_PHYSICAL := 4096
  const MAX_PRODUCTS := 256

  const ReadCodes: set<string> :=
    {"ReadFailed", "InputLimit", "InvalidDocument", "DepthLimit", "UnsupportedResource", "AdmissionInvalid",
     "UnknownField"}

  type ReadCode = c: string | c in ReadCodes witness "ReadFailed"

  /**
   One physical document, by how far it can be decoded: not as one unambiguous value, as no value at all, as
   something else than a product, as a product with unknown or ill-typed fields, or completely.
   */
  datatype Physical =
    | Ambiguous(code: ReadCode)
    | Blank
    | Foreign(code: ReadCode)
    | Mistyped(ui: bool, code: ReadCode)
    | Declared(declaration: Declaration)

  datatype Source = Unreadable(code: ReadCode) | Readable(documents: seq<Physical>)

  /** How much of a source was read. */
  datatype Summary = Summary(source: nat, documents: nat, products: nat)

  /** The deadline of a check, counted in the times it is asked for. */
  class Context {
    const deadline: Option<nat>
    var clock: nat

    constructor (deadline: Option<nat>)
      ensures this.deadline == deadline && clock == 0
    {
      this.deadline, clock := deadline, 0;
    }

    method Expired() returns (late: bool)
      modifies this
      ensures clock == old(clock) + 1
      ensures late <==> deadline.Some? && deadline.value <= old(clock)
    {
      late := deadline.Some? && deadline.value <= clock;
      clock := clock + 1;
    }

    /** What is left for a step with a clock of its own. */
    function Left(): (left: Option<nat>)
      reads this
      ensures left.None? <==> deadline.None?
    {
      match deadline
      case None => None
      case Some(d) => Some(if clock <= d then d - clock else 0)
    }
  }

  // ---------------------------------------------------------------- what a selection holds

  function Origins(selected: seq<Selected>): (origins: seq<Origin>)
    ensures |origins| == |selected|
    ensures forall i {:trigger origins[i]} {:trigger selected[i]} :: 0 <= i < |origins| ==>
              origins[i] == selected[i].origin
  {
    seq(|selected|, i requires 0 <= i < |selected| => selected[i].origin)
  }

  /** The declarations among the first n physical documents of a source. */
  function Selections(source: nat, input: seq<Physical>, n: nat): seq<Selected>
    requires n <= |input|
  {
    if n == 0 then []
    else
      Selections(source, input, n - 1)
      + (if input[n - 1].Declared? then [Selected(Origin(source, n), input[n - 1].declaration)] else [])
  }

  function InputOf(s: Source): seq<Physical>
  {
    match s
    case Readable(documents) => documents
    case Unreadable(_) => []
  }

  /** The declarations of the first n sources. */
  function AllSelections(sources: seq<Source>, n: nat): seq<Selected>
    requires n <= |sources|
  {
    if n == 0 then []
    else
      var input := InputOf(sources[n - 1]);
      AllSelections(sources, n - 1) + Selections(n, input, |input|)
  }

  function PhysicalIn(sources: seq<Source>, n: nat): nat
    requires n <= |sources|
  {
    if n == 0 then 0 else PhysicalIn(sources, n - 1) + |InputOf(sources[n - 1])|
  }

  predicate Decodes(p: Physical)
  {
    p.Blank? || p.Declared?
  }

  /** The first n documents can be read after what was read before. */
  ghost predicate Parses(input: seq<Physical>, n: nat, source: nat, prior: nat, physical: nat)
    requires n <= |input|
  {
    && (forall i {:trigger input[i]} :: 0 <= i < n ==> Decodes(input[i]))
    && physical + n <= MAX_PHYSICAL && prior + |Selections(source, input, n)| <= MAX_PRODUCTS
  }

  /** The first n sources can be read. */
  ghost predicate Legible(sources: seq<Source>, n: nat)
    requires n <= |sources|
  {
    && (forall i {:trigger sources[i]} :: 0 <= i < n ==>
          sources[i].Readable? && forall p :: p in sources[i].documents ==> Decodes(p))
    && PhysicalIn(sources, n) <= MAX_PHYSICAL && |AllSelections(sources, n)| <= MAX_PRODUCTS
  }

  // ---------------------------------------------------------------- positions and counts

  ghost predicate Before(a: Origin, b: Origin)
  {
    a.source < b.source || (a.source == b.source && a.document < b.document)
  }

  /** Positions in reading order, hence all different. */
  ghost predicate Ascending(origins: seq<Origin>)
  {
    forall i, j :: 0 <= i < j < |origins| ==> Before(origins[i], origins[j])
  }

  function CountIn(origins: seq<Origin>, source: nat): nat
  {
    if origins == [] then 0
    else CountIn(origins[..|origins| - 1], source) + (if origins[|origins| - 1].source == source then 1 else 0)
  }

  lemma {:induction false} CountMore(origins: seq<Origin>, o: Origin, source: nat)
    ensures CountIn(origins + [o], source) == CountIn(origins, source) + (if o.source == source then 1 else 0)
  {
    var more := origins + [o];
    assert more[..|more| - 1] == origins;
  }

  lemma {:induction false} CountJoins(a: seq<Origin>, b: seq<Origin>, source: nat)
    ensures CountIn(a + b, source) == CountIn(a, source) + CountIn(b, source)
    decreases |b|
  {
    if b == [] {
      assert a + b == a;
    } else {
      var front := b[..|b| - 1];
      CountJoins(a, front, source);
      CountMore(a + front, b[|b| - 1], source);
      assert a + b == a + front + [b[|b| - 1]];
    }
  }

  lemma {:induction false} CountSame(origins: seq<Origin>, source: nat, other: nat)
    requires forall o :: o in origins ==> o.source == source
    ensures CountIn(origins, other) == if other == source then |origins| else 0
    decreases |origins|
  {
    if origins != [] {
      var front := origins[..|origins| - 1];
      assert origins == front + [origins[|origins| - 1]];
      CountSame(front, source, other);
    }
  }

  function Documents(s: Summary): nat
  {
    s.documents
  }

  function ProductsOf(s: Summary): nat
  {
    s.products
  }

  function Total(summaries: seq<Summary>, f: Summary -> nat): nat
  {
    if summaries == [] then 0 else Total(summaries[..|summaries| - 1], f) + f(summaries[|summaries| - 1])
  }

  lemma {:induction false} TotalUpdate(summaries: seq<Summary>, f: Summary -> nat, i: nat, s: Summary)
    requires i < |summaries|
    ensures Total(summaries[i := s], f) == Total(summaries, f) - f(summaries[i]) + f(s)
    decreases |summaries|
  {
    var front := summaries[..|summaries| - 1];
    var updated := summaries[i := s];
    if i == |summaries| - 1 {
      assert updated[..|updated| - 1] == front;
    } else {
      assert updated[..|updated| - 1] == front[i := s];
      TotalUpdate(front, f, i, s);
    }
  }

  lemma {:induction false} TotalZero(summaries: seq<Summary>, f: Summary -> nat)
    requires forall s :: s in summaries ==> f(s) == 0
    ensures Total(summaries, f) == 0
    decreases |summaries|
  {
    if summaries != [] {
      var front := summaries[..|summaries| - 1];
      assert summaries == front + [summaries[|summaries| - 1]];
      TotalZero(front, f);
    }
  }

  function Counts(summaries: seq<Summary>): (counts: seq<nat>)
    ensures |counts| == |summaries|
    ensures forall i {:trigger counts[i]} {:trigger summaries[i]} :: 0 <= i < |counts| ==>
              counts[i] == summaries[i].documents
  {
    seq(|summaries|, i requires 0 <= i < |summaries| => summaries[i].documents)
  }

  /** A position of a finding: no source, a whole source, or one of its documents. */
  predicate GlobalPosition(summaries: seq<Summary>, o: Origin)
  {
    if o.source == 0 then o.document == 0
    else o.source <= |summaries| && o.document <= summaries[o.source - 1].documents
  }

  predicate ValidSummary(s: Summary, index: nat)
  {
    s.source == index + 1 && s.documents <= MAX_PHYSICAL + 1 && s.products <= MAX_PRODUCTS && s.products <= s.documents
  }

  /** The summaries of a report; a document past the limit is still counted when reading fails. */
  ghost predicate SummariesSound(summaries: seq<Summary>, valid: bool)
  {
    && |summaries| <= MAX_SOURCES
    && (forall i {:trigger summaries[i]} :: 0 <= i < |summaries| ==> ValidSummary(summaries[i], i))
    && Total(summaries, ProductsOf) <= MAX_PRODUCTS
    && Total(summaries, Documents) <= (if valid then MAX_PHYSICAL else MAX_PHYSICAL + 1)
  }

  /** The summaries count the declarations read so far, whose positions they cover. */
  ghost predicate Covers(summaries: seq<Summary>, origins: seq<Origin>)
  {
    && Ascending(origins)
    && (forall o :: o in origins ==> PlanCheck.ValidPosition(Counts(summaries), o))
    && (forall i {:trigger summaries[i]} :: 0 <= i < |summaries| ==> CountIn(origins, i + 1) == summaries[i].products)
    && Total(summaries, ProductsOf) == |origins|
  }

  /** What reading adds to a report: refused user interfaces, at positions of a source read so far. */
  ghost predicate Interfaces(summaries: seq<Summary>, details: seq<Diagnostic>, findings: seq<Finding>)
  {
    && (forall d :: d in details ==> GlobalPosition(summaries, d.origin))
    && forall f :: f in findings ==> f.severity == Error && f.code == "InvalidUI" && f.steps == []
  }

  // ---------------------------------------------------------------- one source

  lemma {:induction false} SelectionsFrom(source: nat, input: seq<Physical>, n: nat)
    requires n <= |input|
    ensures |Selections(source, input, n)| <= n
    ensures forall s :: s in Selections(source, input, n) ==> s.origin.source == source && 1 <= s.origin.document <= n
    ensures Ascending(Origins(Selections(source, input, n)))
    decreases n
  {
    if n > 0 {
      SelectionsFrom(source, input, n - 1);
      var before := Selections(source, input, n - 1);
      assert forall i {:trigger before[i]} :: 0 <= i < |before| ==> before[i] in before;
    }
  }

  lemma {:induction false} NextSelection(source: nat, input: seq<Physical>, n: nat)
    requires n < |input|
    ensures Selections(source, input, n + 1) ==
            if input[n].Declared?
            then Selections(source, input, n) + [Selected(Origin(source, n + 1), input[n].declaration)]
            else Selections(source, input, n)
    ensures Selections(source, input, 0) == []
  {
  }

  /** A longer prefix that can be read extends a shorter one that can. */
  lemma {:induction false} ParsesLess(input: seq<Physical>, n: nat, source: nat, prior: nat, physical: nat)
    requires n <= |input| && Parses(input, |input|, source, prior, physical)
    ensures Parses(input, n, source, prior, physical)
    decreases |input| - n
  {
    if n < |input| {
      ParsesDown(input, |input|, n, source, prior, physical);
    }
  }

  lemma {:induction false} ParsesDown(input: seq<Physical>, m: nat, n: nat, source: nat, prior: nat, physical: nat)
    requires n <= m <= |input| && Parses(input, m, source, prior, physical)
    ensures Parses(input, n, source, prior, physical)
    decreases m
  {
    if n < m {
      NextSelection(source, input, m - 1);
      ParsesDown(input, m - 1, n, source, prior, physical);
    }
  }

  predicate HasInterface(p: Physical)
  {
    match p
    case Mistyped(ui, _) => ui
    case Declared(d) => d.ui.Some?
    case _ => false
  }

  /** Details added while reading one source stand at its documents. */
  ghost predicate AtSource(before: seq<Diagnostic>, after: seq<Diagnostic>, source: nat, documents: nat)
  {
    && before <= after
    && forall i {:trigger after[i]} :: |before| <= i < |after| ==>
         after[i].origin.source == source && after[i].origin.document <= documents
  }

  ghost predicate OnlyInterfaces(before: seq<Finding>, after: seq<Finding>)
  {
    && before <= after
    && forall i {:trigger after[i]} :: |before| <= i < |after| ==>
         after[i].severity == Error && after[i].code == "InvalidUI" && after[i].steps == []
  }

  /** An API-only check refuses every declared user interface, once for each declaration. */
  function RefusedInterfaces(apiOnly: bool, selected: seq<Selected>): (n: nat)
    ensures n <= |selected|
  {
    if !apiOnly || selected == [] then 0
    else
      var last := selected[|selected| - 1];
      RefusedInterfaces(apiOnly, selected[..|selected| - 1]) + (if last.declaration.ui.Some? then 1 else 0)
  }

  /** What reading one source up to its document n adds to the report. */
  ghost predicate SourceAdds(beforeD: seq<Diagnostic>, afterD: seq<Diagnostic>, beforeF: seq<Finding>,
                             afterF: seq<Finding>,
                             source: nat, n: nat)
  {
    AtSource(beforeD, afterD, source, n) && OnlyInterfaces(beforeF, afterF)
  }

  lemma {:induction false} NothingAdded(details: seq<Diagnostic>, findings: seq<Finding>, source: nat)
    ensures SourceAdds(details, details, findings, findings, source, 0)
  {
  }

  lemma {:induction false} SourceAddsLater(beforeD: seq<Diagnostic>, afterD: seq<Diagnostic>, beforeF: seq<Finding>,
                                           afterF: seq<Finding>, source: nat, n: nat)
    requires SourceAdds(beforeD, afterD, beforeF, afterF, source, n)
    ensures SourceAdds(beforeD, afterD, beforeF, afterF, source, n + 1)
  {
  }

  /** A refused user interface is one more finding, at the document just read. */
  lemma {:induction false} InterfaceAdds(beforeD: seq<Diagnostic>, d: seq<Diagnostic>, afterD: seq<Diagnostic>,
                                         beforeF: seq<Finding>, findings: seq<Finding>, f: Finding, source: nat, n: nat)
    requires SourceAdds(beforeD, d, beforeF, findings, source, n)
    requires Placed(d, afterD, [], Origin(source, n))
    requires f.severity == Error && f.code == "InvalidUI" && f.steps == []
    ensures SourceAdds(beforeD, afterD, beforeF, findings + [f], source, n)
  {
    forall i {:trigger afterD[i]} | |beforeD| <= i < |afterD|
      ensures afterD[i].origin.source == source && afterD[i].origin.document <= n
    {
      if i < |d| {
        assert afterD[i] == d[i];
      }
    }
  }

  /** The next document can be read exactly when no limit or error stops the loop at it. */
  lemma {:induction false} ParsesStep(input: seq<Physical>, n: nat, source: nat, prior: nat, physical: nat)
    requires n < |input| && Parses(input, n, source, prior, physical)
    ensures Parses(input, n + 1, source, prior, physical) <==>
            && physical + n + 1 <= MAX_PHYSICAL && Decodes(input[n])
            && (input[n].Declared? ==> prior + |Selections(source, input, n)| < MAX_PRODUCTS)
  {
    NextSelection(source, input, n);
  }

  lemma {:induction false} ParsesStart(input: seq<Physical>, source: nat, prior: nat, physical: nat)
    ensures Parses(input, 0, source, prior, physical) <==> physical <= MAX_PHYSICAL && prior <= MAX_PRODUCTS
    ensures Selections(source, input, 0) == []
  {
  }

  lemma {:induction false} ParsesNot(input: seq<Physical>, n: nat, source: nat, prior: nat, physical: nat)
    requires n < |input| && !Parses(input, n + 1, source, prior, physical)
    ensures !Parses(input, |input|, source, prior, physical)
  {
    if Parses(input, |input|, source, prior, physical) {
      ParsesLess(input, n + 1, source, prior, physical);
    }
  }

  lemma {:induction false} SelectionsAtMost(input: seq<Physical>, n: nat, source: nat, prior: nat, physical: nat)
    requires n <= |input| && Parses(input, n, source, prior, physical)
    ensures physical + n <= MAX_PHYSICAL && prior + |Selections(source, input, n)| <= MAX_PRODUCTS
    ensures |Selections(source, input, n)| <= n
  {
    SelectionsFrom(source, input, n);
  }

  lemma {:induction false} ReadCodesAreCodes(c: ReadCode)
    ensures c != "" && PublicCode(c)
  {
  }

  lemma {:induction false} LimitCodes()
    ensures PublicCode("ValidationLimit") && PublicCode("DocumentLimit") && PublicCode("ProductLimit")
    ensures PublicCode("SourceLimit") && PublicCode("NoProducts")
  {
  }

  lemma {:induction false} InterfaceNext(apiOnly: bool, selected: seq<Selected>, s: Selected)
    ensures RefusedInterfaces(apiOnly, selected + [s]) ==
            RefusedInterfaces(apiOnly, selected) + (if apiOnly && s.declaration.ui.Some? then 1 else 0)
  {
    var more := selected + [s];
    assert more[..|more| - 1] == selected;
  }

  /**
   Reads one source after prior declarations and physical documents. It succeeds without a deadline exactly when
   every document decodes within the limits.
   */
  method ParseSource(context: Context, report: Report, apiOnly: bool, input: seq<Physical>, source: nat, prior: nat,
                     physical: nat)
    returns (documents: seq<Selected>, summary: Summary, code: string, number: nat, failure: Origin, read: nat)
    requires report.Valid() && report.documents == [] && physical <= MAX_PHYSICAL && prior <= MAX_PRODUCTS
    modifies context, report
    ensures report.Valid() && report.documents == []
    ensures summary.source == source && summary.documents <= |input| && summary.products <= summary.documents
    ensures read == physical + summary.documents <= MAX_PHYSICAL + 1 && prior + summary.products <= MAX_PRODUCTS
    ensures SourceAdds(old(report.details), report.details, old(report.findings), report.findings, source,
                       summary.documents)
    ensures code == "" ==>
              && Parses(input, |input|, source, prior, physical) && documents == Selections(source, input, |input|)
              && summary == Summary(source, |input|, |documents|) && read <= MAX_PHYSICAL
              && |report.findings| == |old(report.findings)| + RefusedInterfaces(apiOnly, documents)
    ensures code != "" ==>
              && documents == [] && PublicCode(code) && failure.source == source &&
                 failure.document <= summary.documents
              && |report.findings| <= |old(report.findings)| + summary.products + 1
    ensures context.deadline.None? ==> (code == "" <==> Parses(input, |input|, source, prior, physical))
  {
    hide Selections, Parses, RefusedInterfaces, SourceAdds, Counted, Shown, NoErrors, Placed, PublicCode;
    LimitCodes();
    ghost var details, findings := report.details, report.findings;
    summary, read := Summary(source, 0, 0), physical;
    failure, documents, number, code := Origin(source, 0), [], 0, "";
    ParsesStart(input, source, prior, physical);
    NothingAdded(details, findings, source);
    assert RefusedInterfaces(apiOnly, documents) <= 0;
    for next := 0 to |input|
      invariant report.Valid() && report.documents == []
      invariant documents == Selections(source, input, next) && summary == Summary(source, next, |documents|)
      invariant read == physical + next && failure == Origin(source, next) && code == ""
      invariant Parses(input, next, source, prior, physical)
      invariant SourceAdds(details, report.details, findings, report.findings, source, next)
      invariant |report.findings| == |findings| + RefusedInterfaces(apiOnly, documents)
    {
      SelectionsAtMost(input, next, source, prior, physical);
      ParsesStep(input, next, source, prior, physical);
      NextSelection(source, input, next);
      SourceAddsLater(details, report.details, findings, report.findings, source, next);
      var late := context.Expired();
      number := prior + |documents| + 1;
      if late {
        return [], summary, "ValidationLimit", number, failure, read;
      }
      summary := summary.(documents := next + 1);
      read := read + 1;
      failure := Origin(source, next + 1);
      if read > MAX_PHYSICAL {
        ParsesNot(input, next, source, prior, physical);
        return [], summary, "DocumentLimit", number, failure, read;
      }
      var document := input[next];
      if document.Ambiguous? {
        ReadCodesAreCodes(document.code);
        ParsesNot(input, next, source, prior, physical);
        return [], summary, document.code, number, failure, read;
      }
      if !document.Blank? {
        if prior + |documents| >= MAX_PRODUCTS {
          ParsesNot(input, next, source, prior, physical);
          return [], summary, "ProductLimit", number, failure, read;
        }
        if document.Foreign? {
          ReadCodesAreCodes(document.code);
          ParsesNot(input, next, source, prior, physical);
          return [], summary, document.code, number, failure, read;
        }
        if apiOnly && HasInterface(document) {
          report.failure := failure;
          ghost var d, f := report.details, report.findings;
          report.AddDetail(number, Error, "InvalidUI", At("/spec/ui"), [], false);
          InterfaceAdds(details, d, report.details, findings, f,
                        Finding(number, Error, "InvalidUI", At("/spec/ui"), [], false),
                        source, next + 1);
        }
        if document.Mistyped? {
          ReadCodesAreCodes(document.code);
          ParsesNot(input, next, source, prior, physical);
          return [], summary, document.code, number, failure, read;
        }
        InterfaceNext(apiOnly, documents, Selected(failure, document.declaration));
        documents := documents + [Selected(failure, document.declaration)];
        summary := summary.(products := summary.products + 1);
      }
    }
    SelectionsAtMost(input, |input|, source, prior, physical);
    var expired := context.Expired();
    if expired {
      return [], summary, "ValidationLimit", prior + |documents| + 1, failure, read;
    }
  }

  /** What comes of one source: all its declarations, or the position where reading stopped. */
  ghost predicate SourceRead(s: Source, source: nat, prior: nat, physical: nat, documents: seq<Selected>,
                             summary: Summary,
                             code: string, failure: Origin, read: nat)
  {
    && summary.source == source && summary.products <= summary.documents
    && read == physical + summary.documents <= MAX_PHYSICAL + 1 && prior + summary.products <= MAX_PRODUCTS
    && (if code == "" then
          var input := InputOf(s);
          && s.Readable? && Parses(input, |input|, source, prior, physical) &&
             documents == Selections(source, input, |input|)
          && summary == Summary(source, |input|, |documents|) && read <= MAX_PHYSICAL
        else documents == [] && PublicCode(code) && failure.source == source && failure.document <= summary.documents)
  }

  /** The body of the loop over sources: a source that cannot be read at all, or its documents. */
  method ReadSource(context: Context, report: Report, apiOnly: bool, s: Source, source: nat, prior: nat, physical: nat)
    returns (documents: seq<Selected>, summary: Summary, code: string, number: nat, failure: Origin, read: nat)
    requires report.Valid() && report.documents == [] && physical <= MAX_PHYSICAL && prior <= MAX_PRODUCTS
    modifies context, report
    ensures report.Valid() && report.documents == []
    ensures SourceRead(s, source, prior, physical, documents, summary, code, failure, read)
    ensures SourceAdds(old(report.details), report.details, old(report.findings), report.findings, source,
                       summary.documents)
    ensures code == "" ==> |report.findings| == |old(report.findings)| + RefusedInterfaces(apiOnly, documents)
    ensures code != "" ==> |report.findings| <= |old(report.findings)| + summary.products + 1
    ensures context.deadline.None? ==>
              var input := InputOf(s);
              (code == "" <==> s.Readable? && Parses(input, |input|, source, prior, physical))
  {
    hide Selections, Parses, RefusedInterfaces, SourceAdds, PublicCode, Report.Valid;
    LimitCodes();
    NothingAdded(report.details, report.findings, source);
    var late := context.Expired();
    if late {
      return [], Summary(source, 0, 0), "ValidationLimit", prior + 1, Origin(source, 0), physical;
    }
    match s
    case Unreadable(c) =>
      ReadCodesAreCodes(c);
      return [], Summary(source, 0, 0), c, 0, Origin(source, 0), physical;
    case Readable(input) =>
      documents, summary, code, number, failure, read := ParseSource(context, report, apiOnly, input, source, prior,
                                                                     physical);
  }

  // ---------------------------------------------------------------- all sources

  /** The state of the loop over sources. */
  ghost predicate ReadSo(sources: seq<Source>, summaries: seq<Summary>, documents: seq<Selected>, n: nat, physical: nat)
  {
    && |summaries| == |sources| && n <= |sources|
    && documents == AllSelections(sources, n) && physical == PhysicalIn(sources, n) && Legible(sources, n)
    && Tallied(summaries, Origins(documents), n, physical)
  }

  /** The summaries of the first n sources count what was read; the others are empty. */
  ghost predicate Tallied(summaries: seq<Summary>, origins: seq<Origin>, n: nat, physical: nat)
  {
    && (forall i {:trigger summaries[i]} :: 0 <= i < |summaries| ==>
          ValidSummary(summaries[i], i) && (n <= i ==> summaries[i] == Summary(i + 1, 0, 0)))
    && Covers(summaries, origins) && Total(summaries, Documents) == physical
    && forall o :: o in origins ==> o.source <= n
  }

  lemma {:induction false} NothingRead(sources: seq<Source>, summaries: seq<Summary>)
    requires |summaries| == |sources|
    requires forall i {:trigger summaries[i]} :: 0 <= i < |summaries| ==> summaries[i] == Summary(i + 1, 0, 0)
    ensures ReadSo(sources, summaries, [], 0, 0)
  {
    TotalZero(summaries, Documents);
    TotalZero(summaries, ProductsOf);
  }

  lemma {:induction false} OriginsJoin(a: seq<Selected>, b: seq<Selected>)
    ensures Origins(a + b) == Origins(a) + Origins(b)
  {
  }

  lemma {:induction false} LegibleStep(sources: seq<Source>, n: nat)
    requires n < |sources| && Legible(sources, n)
    ensures var input := InputOf(sources[n]);
            Legible(sources, n + 1) <==>
            sources[n].Readable? && Parses(input, |input|, n + 1, |AllSelections(sources, n)|, PhysicalIn(sources, n))
    ensures AllSelections(sources, n + 1) == AllSelections(sources, n) +
            Selections(n + 1, InputOf(sources[n]), |InputOf(sources[n])|)
    ensures PhysicalIn(sources, n + 1) == PhysicalIn(sources, n) + |InputOf(sources[n])|
  {
    hide Decodes, Selections;
    var input := InputOf(sources[n]);
    if forall i {:trigger input[i]} :: 0 <= i < |input| ==> Decodes(input[i]) {
      assert forall p :: p in input ==> Decodes(p);
    }
  }

  lemma {:induction false} LegibleLess(sources: seq<Source>, n: nat, m: nat)
    requires n <= m <= |sources| && Legible(sources, m)
    ensures Legible(sources, n)
    decreases m
  {
    hide Decodes;
    if n < m {
      LegibleLess(sources, n, m - 1);
    }
  }

  /** The positions of one more source come after all earlier ones and count for it alone. */
  lemma {:induction false} CoversMore(summaries: seq<Summary>, origins: seq<Origin>, more: seq<Origin>, n: nat,
                                      s: Summary)
    requires n < |summaries| <= MAX_SOURCES && Covers(summaries, origins) && summaries[n] == Summary(n + 1, 0, 0)
    requires s == Summary(n + 1, s.documents, |more|)
    requires forall o :: o in origins ==> o.source <= n
    requires forall o :: o in more ==> o.source == n + 1 && 1 <= o.document <= s.documents
    requires Ascending(more)
    ensures Covers(summaries[n := s], origins + more)
  {
    var updated, joined := summaries[n := s], origins + more;
    TotalUpdate(summaries, ProductsOf, n, s);
    forall i, j | 0 <= i < j < |joined|
      ensures Before(joined[i], joined[j])
    {
      if i < |origins| <= j {
        assert joined[i] in origins && joined[j] in more;
      }
    }
    forall o | o in joined
      ensures PlanCheck.ValidPosition(Counts(updated), o)
    {
      if o in origins {
        assert PlanCheck.ValidPosition(Counts(summaries), o);
        assert o.source - 1 != n && updated[o.source - 1] == summaries[o.source - 1];
      }
    }
    forall i {:trigger updated[i]} | 0 <= i < |updated|
      ensures CountIn(joined, i + 1) == updated[i].products
    {
      CountJoins(origins, more, i + 1);
      CountSame(more, n + 1, i + 1);
      assert CountIn(origins, i + 1) == summaries[i].products;
    }
  }

  /** One more source read. */
  lemma {:induction false} ReadMore(sources: seq<Source>, summaries: seq<Summary>, documents: seq<Selected>, n: nat,
                                    physical: nat,
                                    s: Summary, parsed: seq<Selected>)
    requires ReadSo(sources, summaries, documents, n, physical) && n < |sources| <= MAX_SOURCES && sources[n].Readable?
    requires var input := InputOf(sources[n]);
             && Parses(input, |input|, n + 1, |documents|, physical) && parsed == Selections(n + 1, input, |input|)
             && s == Summary(n + 1, |input|, |parsed|)
    ensures ReadSo(sources, summaries[n := s], documents + parsed, n + 1, physical + s.documents)
  {
    var input := InputOf(sources[n]);
    LegibleStep(sources, n);
    SelectionsFrom(n + 1, input, |input|);
    OriginsJoin(documents, parsed);
    SelectionOrigins(parsed, n + 1, |input|);
    hide Tallied, Legible, AllSelections, PhysicalIn, Selections, Decodes, Ascending;
    SelectionsAtMost(input, |input|, n + 1, |documents|, physical);
    TalliedMore(summaries, Origins(documents), Origins(parsed), n, physical, s);
  }

  lemma {:induction false} TalliedMore(summaries: seq<Summary>, origins: seq<Origin>, more: seq<Origin>, n: nat,
                                       physical: nat,
                                       s: Summary)
    requires n < |summaries| <= MAX_SOURCES && Tallied(summaries, origins, n, physical)
    requires s == Summary(n + 1, s.documents, |more|) && |more| <= s.documents <= MAX_PHYSICAL && |more| <= MAX_PRODUCTS
    requires forall o :: o in more ==> o.source == n + 1 && 1 <= o.document <= s.documents
    requires Ascending(more)
    ensures Tallied(summaries[n := s], origins + more, n + 1, physical + s.documents)
  {
    assert summaries[n] == Summary(n + 1, 0, 0);
    CoversMore(summaries, origins, more, n, s);
    TotalUpdate(summaries, Documents, n, s);
    hide Covers, Ascending;
  }

  lemma {:induction false} SelectionOrigins(parsed: seq<Selected>, source: nat, n: nat)
    requires forall s :: s in parsed ==> s.origin.source == source && 1 <= s.origin.document <= n
    ensures forall o :: o in Origins(parsed) ==> o.source == source && 1 <= o.document <= n
  {
    forall o | o in Origins(parsed)
      ensures o.source == source && 1 <= o.document <= n
    {
      var i :| 0 <= i < |Origins(parsed)| && Origins(parsed)[i] == o;
      assert parsed[i] in parsed;
    }
  }

  /** Wherever reading stops, the summaries are sound. */
  lemma {:induction false} StoppedSound(sources: seq<Source>, summaries: seq<Summary>, documents: seq<Selected>, n: nat,
                                        physical: nat, s: Summary)
    requires ReadSo(sources, summaries, documents, n, physical) && n < |sources| <= MAX_SOURCES
    requires s.source == n + 1 && s.products <= s.documents && physical + s.documents <= MAX_PHYSICAL + 1
    requires |documents| + s.products <= MAX_PRODUCTS
    ensures SummariesSound(summaries[n := s], false)
  {
    assert summaries[n] == Summary(n + 1, 0, 0);
    TotalUpdate(summaries, Documents, n, s);
    TotalUpdate(summaries, ProductsOf, n, s);
    hide Legible, AllSelections, PhysicalIn;
  }

  lemma {:induction false} ReadSound(sources: seq<Source>, summaries: seq<Summary>, documents: seq<Selected>, n: nat,
                                     physical: nat)
    requires ReadSo(sources, summaries, documents, n, physical) && |sources| <= MAX_SOURCES
    ensures SummariesSound(summaries, true) && Covers(summaries, Origins(documents))
    ensures |documents| <= MAX_PRODUCTS && physical <= MAX_PHYSICAL
  {
    hide AllSelections, PhysicalIn;
  }

  lemma {:induction false} SoundAnyway(summaries: seq<Summary>)
    requires SummariesSound(summaries, true)
    ensures SummariesSound(summaries, false)
  {
  }

  lemma {:induction false} InterfacesKept(summaries: seq<Summary>, n: nat, s: Summary, beforeD: seq<Diagnostic>,
                                          afterD: seq<Diagnostic>, beforeF: seq<Finding>, afterF: seq<Finding>)
    requires n < |summaries| && summaries[n] == Summary(n + 1, 0, 0) && Interfaces(summaries, beforeD, beforeF)
    requires SourceAdds(beforeD, afterD, beforeF, afterF, n + 1, s.documents)
    ensures Interfaces(summaries[n := s], afterD, afterF)
  {
    forall d | d in afterD
      ensures GlobalPosition(summaries[n := s], d.origin)
    {
      var i :| 0 <= i < |afterD| && afterD[i] == d;
      if i < |beforeD| {
        assert beforeD[i] == d && d in beforeD;
      }
    }
    forall f | f in afterF
      ensures f.severity == Error && f.code == "InvalidUI" && f.steps == []
    {
      var i :| 0 <= i < |afterF| && afterF[i] == f;
      if i < |beforeF| {
        assert beforeF[i] == f && f in beforeF;
      }
    }
  }

  lemma {:induction false} InterfacesJoin(apiOnly: bool, a: seq<Selected>, b: seq<Selected>)
    ensures RefusedInterfaces(apiOnly, a + b) == RefusedInterfaces(apiOnly, a) + RefusedInterfaces(apiOnly, b)
    decreases |b|
  {
    if b == [] {
      assert a + b == a;
    } else {
      var front, last := b[..|b| - 1], b[|b| - 1];
      InterfacesJoin(apiOnly, a, front);
      InterfaceNext(apiOnly, a + front, last);
      assert a + b == a + front + [last];
    }
  }

  lemma {:induction false} StillUnread(sources: seq<Source>, summaries: seq<Summary>, documents: seq<Selected>, n: nat,
                                       physical: nat)
    requires ReadSo(sources, summaries, documents, n, physical) && n < |sources| <= MAX_SOURCES
    ensures n < |summaries| && summaries[n] == Summary(n + 1, 0, 0) && SummariesSound(summaries, true)
    ensures GlobalPosition(summaries, Origin(n + 1, 0))
    ensures |documents| <= MAX_PRODUCTS && physical <= MAX_PHYSICAL && Legible(sources, n)
    ensures documents == AllSelections(sources, n) && physical == PhysicalIn(sources, n)
  {
    ReadSound(sources, summaries, documents, n, physical);
    hide Covers, Legible, AllSelections, PhysicalIn, SummariesSound;
  }

  /** A failure while reading: nothing is selected, and the position is one the summaries cover. */
  ghost predicate Stopped(summaries: seq<Summary>, documents: seq<Selected>, code: string, failure: Origin)
  {
    documents == [] && code != "" && PublicCode(code) && GlobalPosition(summaries, failure) &&
    SummariesSound(summaries, false)
  }

  /** A selection read to its end. */
  ghost predicate Complete(sources: seq<Source>, summaries: seq<Summary>, documents: seq<Selected>)
  {
    && |sources| <= MAX_SOURCES && Legible(sources, |sources|)
    && documents == AllSelections(sources, |sources|) && 1 <= |documents| <= MAX_PRODUCTS
    && SummariesSound(summaries, true) && Covers(summaries, Origins(documents))
  }

  /** The selection can be read: the declarative counterpart of the two loops. */
  ghost predicate Selectable(sources: seq<Source>)
  {
    |sources| <= MAX_SOURCES && Legible(sources, |sources|) && AllSelections(sources, |sources|) != []
  }

  /**
   Reads every source. Without a deadline it succeeds exactly when the selection can be read. One finding is added
   for every user interface that has to be refused.
   */
  method ReadSelected(context: Context, report: Report, sources: seq<Source>, apiOnly: bool)
    returns (documents: seq<Selected>, summaries: seq<Summary>, code: string, number: nat, failure: Origin)
    requires report.Valid() && report.documents == [] && report.findings == []
    modifies context, report
    ensures report.Valid() && report.documents == []
    ensures Interfaces(summaries, report.details, report.findings)
    ensures code == "" ==> Complete(sources, summaries, documents) && failure == Origin(0, 0)
    ensures code == "" ==> |report.findings| == RefusedInterfaces(apiOnly, documents)
    ensures |report.findings| <= MAX_PRODUCTS + 1
    ensures code != "" ==> Stopped(summaries, documents, code, failure)
    ensures context.deadline.None? ==> (code == "" <==> Selectable(sources))
  {
    hide *;
    NothingReached(report, sources, apiOnly);
    SelectableIs(sources);
    documents, summaries, code, number, failure := [], [], "", 0, Origin(0, 0);
    if |sources| > MAX_SOURCES {
      code := "SourceLimit";
      return;
    }
    summaries := Unread(|sources|);
    var physical := 0;
    for index := 0 to |sources|
      invariant report.Valid() && report.documents == []
      invariant Reached(sources, apiOnly, index, summaries, documents, physical, report.details, report.findings)
    {
      ReachedIs(sources, apiOnly, index, summaries, documents, physical, report.details, report.findings);
      ghost var details, findings := report.details, report.findings;
      var parsed, summary, stop, at, where, read :=
        ReadSource(context, report, apiOnly, sources[index], index + 1, |documents|, physical);
      if stop != "" {
        ReachedStops(sources, apiOnly, index, summaries, documents, physical, details, findings, parsed, summary, stop,
                     where, read,
                     report.details, report.findings);
        return [], summaries[index := summary], stop, at, where;
      }
      ReachedMore(sources, apiOnly, index, summaries, documents, physical, details, findings, parsed, summary, stop,
                  where, read,
                  report.details, report.findings);
      summaries := summaries[index := summary];
      documents := documents + parsed;
      physical := read;
    }
    ReachedAll(sources, apiOnly, summaries, documents, physical, report.details, report.findings);
    if documents == [] {
      code := "NoProducts";
    }
  }

  function Unread(n: nat): (summaries: seq<Summary>)
    ensures |summaries| == n && forall i {:trigger summaries[i]} :: 0 <= i < n ==> summaries[i] == Summary(i + 1, 0, 0)
  {
    seq(n, i requires 0 <= i < n => Summary(i + 1, 0, 0))
  }

  /** Everything the loop over sources keeps. */
  ghost predicate Reached(sources: seq<Source>, apiOnly: bool, n: nat, summaries: seq<Summary>,
                          documents: seq<Selected>,
                          physical: nat, details: seq<Diagnostic>, findings: seq<Finding>)
  {
    && |sources| <= MAX_SOURCES && ReadSo(sources, summaries, documents, n, physical)
    && Interfaces(summaries, details, findings)
    && |findings| == RefusedInterfaces(apiOnly, documents)
  }

  lemma {:induction false} NothingReached(report: Report, sources: seq<Source>, apiOnly: bool)
    requires report.Valid() && report.findings == []
    ensures |sources| <= MAX_SOURCES ==>
              Reached(sources, apiOnly, 0, Unread(|sources|), [], 0, report.details, report.findings)
    ensures |sources| > MAX_SOURCES ==>
              && Stopped([], [], "SourceLimit", Origin(0, 0)) && Interfaces([], report.details, report.findings)
              && |report.findings| <= MAX_PRODUCTS + 1
              && !Selectable(sources)
  {
    NoDetails(report);
    NothingRead(sources, Unread(|sources|));
    hide ReadSo, Interfaces, RefusedInterfaces, Legible, AllSelections, Unread, Report.Valid;
    if |sources| > MAX_SOURCES {
      LimitCodes();
      NoSummaries();
      StoppedIs([], "SourceLimit", Origin(0, 0));
    }
  }

  lemma {:induction false} ReachedIs(sources: seq<Source>, apiOnly: bool, n: nat, summaries: seq<Summary>,
                                     documents: seq<Selected>,
                                     physical: nat, details: seq<Diagnostic>, findings: seq<Finding>)
    requires Reached(sources, apiOnly, n, summaries, documents, physical, details, findings) && n < |sources|
    ensures |documents| <= MAX_PRODUCTS && physical <= MAX_PHYSICAL && n < |summaries|
  {
    hide ReadSo, Interfaces, RefusedInterfaces;
    StillUnread(sources, summaries, documents, n, physical);
  }

  lemma {:induction false} ReachedMore(sources: seq<Source>, apiOnly: bool, n: nat, summaries: seq<Summary>,
                                       documents: seq<Selected>, physical: nat, details: seq<Diagnostic>,
                                       findings: seq<Finding>,
                                       parsed: seq<Selected>, s: Summary, code: string, where: Origin, read: nat,
                                       afterD: seq<Diagnostic>, afterF: seq<Finding>)
    requires n < |sources| && n < |summaries| && code == ""
    requires Reached(sources, apiOnly, n, summaries, documents, physical, details, findings)
    requires SourceRead(sources[n], n + 1, |documents|, physical, parsed, s, code, where, read)
    requires SourceAdds(details, afterD, findings, afterF, n + 1, s.documents)
    requires |afterF| == |findings| + RefusedInterfaces(apiOnly, parsed)
    ensures Reached(sources, apiOnly, n + 1, summaries[n := s], documents + parsed, read, afterD, afterF)
  {
    hide ReadSo, Interfaces, RefusedInterfaces, SourceAdds, Parses, Selections, PublicCode;
    StillUnread(sources, summaries, documents, n, physical);
    ReadMore(sources, summaries, documents, n, physical, s, parsed);
    InterfacesKept(summaries, n, s, details, afterD, findings, afterF);
    InterfacesJoin(apiOnly, documents, parsed);
  }

  lemma {:induction false} ReachedStops(sources: seq<Source>, apiOnly: bool, n: nat, summaries: seq<Summary>,
                                        documents: seq<Selected>, physical: nat, details: seq<Diagnostic>,
                                        findings: seq<Finding>,
                                        parsed: seq<Selected>, s: Summary, code: string, where: Origin, read: nat,
                                        afterD: seq<Diagnostic>, afterF: seq<Finding>)
    requires n < |sources| && n < |summaries| && code != ""
    requires Reached(sources, apiOnly, n, summaries, documents, physical, details, findings)
    requires SourceRead(sources[n], n + 1, |documents|, physical, parsed, s, code, where, read)
    requires SourceAdds(details, afterD, findings, afterF, n + 1, s.documents)
    requires |afterF| <= |findings| + s.products + 1
    ensures Stopped(summaries[n := s], [], code, where) && Interfaces(summaries[n := s], afterD, afterF)
    ensures |afterF| <= MAX_PRODUCTS + 1
    ensures var input := InputOf(sources[n]);
            Selectable(sources) ==> sources[n].Readable? && Parses(input, |input|, n + 1, |documents|, physical)
  {
    hide ReadSo, Interfaces, RefusedInterfaces, SourceAdds, Parses, Selections, PublicCode, Legible, AllSelections,
         PhysicalIn;
    hide SummariesSound, Stopped;
    StillUnread(sources, summaries, documents, n, physical);
    LegibleStep(sources, n);
    IllegibleStays(sources, n);
    StoppedSound(sources, summaries, documents, n, physical, s);
    InterfacesKept(summaries, n, s, details, afterD, findings, afterF);
    StoppedIs(summaries[n := s], code, where);
  }

  lemma {:induction false} ReachedAll(sources: seq<Source>, apiOnly: bool, summaries: seq<Summary>,
                                      documents: seq<Selected>,
                                      physical: nat, details: seq<Diagnostic>, findings: seq<Finding>)
    requires Reached(sources, apiOnly, |sources|, summaries, documents, physical, details, findings)
    ensures Interfaces(summaries, details, findings) &&
            |findings| == RefusedInterfaces(apiOnly, documents) <= MAX_PRODUCTS + 1
    ensures documents != [] ==> Complete(sources, summaries, documents) && Selectable(sources)
    ensures documents == [] ==> Stopped(summaries, documents, "NoProducts", Origin(0, 0)) && !Selectable(sources)
  {
    hide ReadSo, Interfaces, RefusedInterfaces, Legible, AllSelections, PhysicalIn, Covers, SummariesSound, Stopped;
    ReadSound(sources, summaries, documents, |sources|, physical);
    ReadAll(sources, summaries, documents, physical);
    SoundAnyway(summaries);
    LimitCodes();
    if documents == [] {
      StoppedIs(summaries, "NoProducts", Origin(0, 0));
    }
  }

  lemma {:induction false} StoppedIs(summaries: seq<Summary>, code: string, failure: Origin)
    requires code != "" && PublicCode(code) && SummariesSound(summaries, false)
    requires failure == Origin(0, 0) || GlobalPosition(summaries, failure)
             || (1 <= failure.source <= |summaries| && failure.document <= summaries[failure.source - 1].documents)
    ensures Stopped(summaries, [], code, failure)
  {
    hide PublicCode, SummariesSound;
  }

  lemma {:induction false} SelectableIs(sources: seq<Source>)
    ensures Selectable(sources) <==>
            |sources| <= MAX_SOURCES && Legible(sources, |sources|) && AllSelections(sources, |sources|) != []
  {
    hide Legible, AllSelections;
  }

  lemma {:induction false} NoDetails(report: Report)
    requires report.Valid() && report.findings == []
    ensures forall summaries :: Interfaces(summaries, report.details, report.findings)
  {
  }

  lemma {:induction false} NoSummaries()
    ensures SummariesSound([], false)
  {
  }

  lemma {:induction false} IllegibleStays(sources: seq<Source>, n: nat)
    requires n < |sources|
    ensures !Legible(sources, n + 1) ==> !Legible(sources, |sources|)
  {
    if Legible(sources, |sources|) {
      LegibleLess(sources, n + 1, |sources|);
    }
  }

  lemma {:induction false} ReadAll(sources: seq<Source>, summaries: seq<Summary>, documents: seq<Selected>,
                                   physical: nat)
    requires ReadSo(sources, summaries, documents, |sources|, physical)
    ensures documents == AllSelections(sources, |sources|) && Legible(sources, |sources|)
  {
    hide AllSelections, Legible, PhysicalIn, Covers;
  }
}
