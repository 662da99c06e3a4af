/** The offline check of a whole selection, up to the report it publishes. */
module Publishing {
  import opened Products
  import opened Bundle
  import opened Findings
  import opened Declarations
  import opened Reading
  import opened ReportCheck
  import Features
  import Plan
  import PlanCheck
  import PlanAccepted
  import Preflight
  import Deployment
  import Witness

  // ---------------------------------------------------------------- one declaration

  /** Errors only, with public codes and without a witness. */
  ghost predicate Simple(findings: seq<Finding>)
  {
    forall f :: f in findings ==> f.severity == Error && PublicCode(f.code) && f.steps == []
  }

  lemma {:induction false} SimpleJoins(a: seq<Finding>, b: seq<Finding>)
    requires Simple(a) && Simple(b)
    ensures Simple(a + b)
  {
    hide PublicCode;
  }

  lemma {:induction false} PlainIsSimple(findings: seq<Finding>, number: nat)
    requires Plain(findings, number)
    ensures Simple(findings)
  {
    hide PublicCode;
  }

  lemma {:induction false} NextComplaint(number: nat, complaints: seq<Complaint>, n: nat)
    requires n < |complaints|
    ensures Complaints(number, complaints, n + 1) ==
            Complaints(number, complaints, n) +
            [Finding(number, Error, complaints[n].code, At(complaints[n].path), [], false)]
    ensures Complaints(number, complaints, 0) == []
  {
  }

  /** Every complaint of a validator becomes a finding. */
  method AddAdmission(report: Report, number: nat, complaints: seq<Complaint>)
    requires report.Valid()
    modifies report
    ensures report.Valid() && report.documents == old(report.documents) && report.failure == old(report.failure)
    ensures Placed(old(report.details), report.details, report.documents, report.failure)
    ensures report.findings == old(report.findings) + Complaints(number, complaints, |complaints|)
  {
    hide *;
    ghost var was, details := report.findings, report.details;
    PlacedSame(details, report.documents, report.failure);
    NoComplaints(number, complaints);
    for next := 0 to |complaints|
      invariant report.Valid() && report.documents == old(report.documents) && report.failure == old(report.failure)
      invariant Placed(details, report.details, report.documents, report.failure)
      invariant report.findings == was + Complaints(number, complaints, next)
    {
      NextComplaint(number, complaints, next);
      ghost var reached := report.details;
      report.AddDetail(number, Error, complaints[next].code, At(complaints[next].path), [], false);
      PlacedJoins(details, reached, report.details, report.documents, report.failure);
    }
  }

  lemma {:induction false} NoComplaints(number: nat, complaints: seq<Complaint>)
    ensures Complaints(number, complaints, 0) == []
  {
  }

  lemma {:induction false} NextCheck(number: nat, d: Declaration, n: nat)
    requires n < |d.checks|
    ensures UndeclaredChecks(number, d, n + 1) ==
            if d.checks[n] in OutputNames(d) then UndeclaredChecks(number, d, n)
            else UndeclaredChecks(number, d, n) +
                 [Finding(number, Error, "ContractOutputNotFound", CheckOf(n), [], false)]
  {
    hide OutputNames;
    assert UndeclaredChecks(number, d, n) + [] == UndeclaredChecks(number, d, n);
  }

  lemma {:induction false} NoChecks(number: nat, d: Declaration)
    ensures UndeclaredChecks(number, d, 0) == []
  {
  }

  /** Contract checks must select declared outputs. */
  method ObserveChecks(report: Report, number: nat, d: Declaration)
    requires report.Valid()
    modifies report
    ensures report.Valid() && report.documents == old(report.documents) && report.failure == old(report.failure)
    ensures Placed(old(report.details), report.details, report.documents, report.failure)
    ensures report.findings == old(report.findings) + UndeclaredChecks(number, d, |d.checks|)
  {
    hide *;
    ghost var was, details := report.findings, report.details;
    PlacedSame(details, report.documents, report.failure);
    NoChecks(number, d);
    var outputs := OutputNames(d);
    for index := 0 to |d.checks|
      invariant report.Valid() && report.documents == old(report.documents) && report.failure == old(report.failure)
      invariant Placed(details, report.details, report.documents, report.failure)
      invariant report.findings == was + UndeclaredChecks(number, d, index)
    {
      NextCheck(number, d, index);
      if d.checks[index] !in outputs {
        ghost var reached := report.details;
        report.AddDetail(number, Error, "ContractOutputNotFound", CheckOf(index), [], false);
        PlacedJoins(details, reached, report.details, report.documents, report.failure);
      }
    }
  }

  /** The claims on names and identifiers after a declaration. */
  function Claims(d: Declaration, apiOnly: bool, names: set<string>, ids: set<string>): (set<string>, set<string>)
  {
    if WellFormed(d, apiOnly) && !Taken(d, names, ids) then (names + {Text(d.product.key)}, ids + {d.id})
       else (names, ids)
  }

  /** Admits one declaration: identity, schema and publication profile, in this order. */
  method Admit(report: Report, number: nat, d: Declaration, apiOnly: bool, names: set<string>, ids: set<string>)
    returns (admitted: bool, checked: Declaration, claimed: set<string>, identified: set<string>)
    requires report.Valid()
    modifies report
    ensures report.Valid() && report.documents == old(report.documents) && report.failure == old(report.failure)
    ensures Placed(old(report.details), report.details, report.documents, report.failure)
    ensures report.findings == old(report.findings) + Admission(number, d, apiOnly, names, ids).findings
    ensures admitted == Admission(number, d, apiOnly, names, ids).admitted
    ensures (claimed, identified) == Claims(d, apiOnly, names, ids)
    ensures checked.product.key == d.product.key && (admitted ==> checked == Unobserved(d))
  {
    hide DnsLabel, DnsSubdomain, Complaints, UndeclaredChecks, OutputNames, Report.Valid, Placed;
    PlacedSame(report.details, report.documents, report.failure);
    admitted, checked, claimed, identified := false, d, names, ids;
    LabelsAreText(d.product.key.ns);
    if d.product.key.ns == "" {
      report.AddDetail(number, Error, "NamespaceRequired", At("/metadata/namespace"), [], false);
      return;
    }
    if !DnsLabel(d.product.key.ns) || !DnsSubdomain(d.product.key.name) {
      report.AddDetail(number, Error, "AdmissionInvalid", At("/metadata"), [], false);
      return;
    }
    if |d.verdict.metadata| != 0 {
      AddAdmission(report, number, d.verdict.metadata);
      return;
    }
    checked := Unobserved(d);
    if !d.verdict.mapping {
      report.AddDetail(number, Error, "AdmissionInvalid", At("/metadata"), [], false);
      return;
    }
    if |d.verdict.schema| > 0 {
      AddAdmission(report, number, d.verdict.schema);
      return;
    }
    if apiOnly && d.ui.Some? {
      return;
    }
    if Text(d.product.key) in names || d.id in ids {
      report.AddDetail(number, Error, "IdentityConflict", At("/metadata"), [], false);
      return;
    }
    claimed, identified := names + {Text(d.product.key)}, ids + {d.id};
    if d.ui.Some? && !d.verdict.ui {
      report.AddDetail(number, Error, "InvalidUI", At("/spec/ui"), [], false);
      return;
    }
    if !d.verdict.preview {
      report.AddDetail(number, Error, "InvalidPublicMetadata", At("/spec"), [], false);
      return;
    }
    if !d.verdict.catalog {
      report.AddDetail(number, Error, "InvalidPublicMetadata", At("/spec"), [], false);
      return;
    }
    ObserveChecks(report, number, checked);
    CheckedChecks(number, d, |d.checks|);
    admitted := true;
  }

  lemma {:induction false} CheckedChecks(number: nat, d: Declaration, n: nat)
    requires n <= |d.checks|
    ensures UndeclaredChecks(number, Unobserved(d), n) == UndeclaredChecks(number, d, n)
    decreases n
  {
    assert OutputNames(Unobserved(d)) == OutputNames(d);
    hide OutputNames;
    if n > 0 {
      CheckedChecks(number, d, n - 1);
    }
  }

  // ---------------------------------------------------------------- all declarations

  function Resolved(selected: seq<Selected>, namespace: string, i: nat): Declaration
    requires i < |selected|
  {
    Named(selected[i].declaration, namespace)
  }

  ghost function Names(selected: seq<Selected>, namespace: string, n: nat): set<string>
    requires n <= |selected|
  {
    set i | 0 <= i < n :: Text(Resolved(selected, namespace, i).product.key)
  }

  ghost function Identifiers(selected: seq<Selected>, namespace: string, n: nat): set<string>
    requires n <= |selected|
  {
    set i | 0 <= i < n :: Resolved(selected, namespace, i).id
  }

  /** The first n declarations are publishable, under names and identifiers of their own. */
  ghost predicate Admissible(selected: seq<Selected>, namespace: string, apiOnly: bool, n: nat)
    requires n <= |selected|
  {
    && (forall i {:trigger Resolved(selected, namespace, i)} :: 0 <= i < n ==>
        Publishable(Resolved(selected, namespace, i), apiOnly))
    && forall i, j {:trigger Resolved(selected, namespace, i), Resolved(selected, namespace, j)} :: 0 <= i < j < n ==>
         && Text(Resolved(selected, namespace, i).product.key) != Text(Resolved(selected, namespace, j).product.key)
         && Resolved(selected, namespace, i).id != Resolved(selected, namespace, j).id
  }

  ghost predicate InterfaceFree(selected: seq<Selected>, apiOnly: bool, n: nat)
    requires n <= |selected|
  {
    apiOnly ==> forall i {:trigger selected[i]} :: 0 <= i < n ==> selected[i].declaration.ui.None?
  }

  lemma {:induction false} AdmissibleStep(selected: seq<Selected>, namespace: string, apiOnly: bool, n: nat)
    requires n < |selected|
    ensures var d := Resolved(selected, namespace, n);
            && (Admissible(selected, namespace, apiOnly, n + 1) <==>
                && Admissible(selected, namespace, apiOnly, n) && Publishable(d, apiOnly)
                && !Taken(d, Names(selected, namespace, n), Identifiers(selected, namespace, n)))
            && Names(selected, namespace, n + 1) == Names(selected, namespace, n) + {Text(d.product.key)}
            && Identifiers(selected, namespace, n + 1) == Identifiers(selected, namespace, n) + {d.id}
  {
    hide Resolved, Publishable, Text;
    var d := Resolved(selected, namespace, n);
    if Admissible(selected, namespace, apiOnly, n + 1) {
      assert forall i {:trigger Resolved(selected, namespace, i)} :: 0 <= i < n ==>
          Text(Resolved(selected, namespace, i).product.key) != Text(d.product.key) &&
          Resolved(selected, namespace, i).id != d.id;
    }
  }

  lemma {:induction false} InterfaceFreeStep(selected: seq<Selected>, namespace: string, apiOnly: bool, n: nat)
    requires n < |selected|
    ensures InterfaceFree(selected, apiOnly, n + 1) <==>
            InterfaceFree(selected, apiOnly, n) && (apiOnly ==> Resolved(selected, namespace, n).ui.None?)
  {
  }

  /** What the loop over declarations knows of the findings it added and the claims it recorded. */
  ghost predicate Admitting(selected: seq<Selected>, namespace: string, apiOnly: bool, n: nat, added: seq<Finding>,
                            names: set<string>, ids: set<string>)
    requires n <= |selected|
  {
    && Simple(added)
    && (added == [] && InterfaceFree(selected, apiOnly, n) <==> Admissible(selected, namespace, apiOnly, n))
    && (Admissible(selected, namespace, apiOnly, n) ==>
          names == Names(selected, namespace, n) && ids == Identifiers(selected, namespace, n))
  }

  lemma {:induction false} NothingAdmitted(selected: seq<Selected>, namespace: string, apiOnly: bool)
    ensures Admitting(selected, namespace, apiOnly, 0, [], {}, {})
  {
  }

  lemma {:induction false} AdmittingMore(selected: seq<Selected>, namespace: string, apiOnly: bool, n: nat, number: nat,
                                         added: seq<Finding>, names: set<string>, ids: set<string>)
    requires n < |selected| && Admitting(selected, namespace, apiOnly, n, added, names, ids)
    ensures var d := Resolved(selected, namespace, n);
            var (claimed, identified) := Claims(d, apiOnly, names, ids);
            var outcome := Admission(number, d, apiOnly, names, ids);
            && Admitting(selected, namespace, apiOnly, n + 1, added + outcome.findings, claimed, identified)
            && (Admissible(selected, namespace, apiOnly, n + 1) ==> outcome.admitted)
  {
    var d := Resolved(selected, namespace, n);
    AdmissionMeans(number, d, apiOnly, names, ids);
    AdmissionPlain(number, d, apiOnly, names, ids);
    AdmissibleStep(selected, namespace, apiOnly, n);
    InterfaceFreeStep(selected, namespace, apiOnly, n);
    PublishableIs(d, apiOnly);
    hide Admission, Plain, Simple, Admissible, InterfaceFree, Names, Identifiers, Publishable, Taken, WellFormed,
         Resolved;
    var found := Admission(number, d, apiOnly, names, ids).findings;
    PlainIsSimple(found, number);
    SimpleJoins(added, found);
    assert added + found == [] <==> added == [] && found == [];
  }

  lemma {:induction false} PublishableIs(d: Declaration, apiOnly: bool)
    ensures Publishable(d, apiOnly) ==> WellFormed(d, apiOnly)
  {
    hide WellFormed;
  }

  // ---------------------------------------------------------------- feature lists

  /** The feature lists stand at some of the first n positions, in order; at all of them when all were admitted. */
  ghost predicate Listing(origins: seq<Origin>, docs: seq<Selected>, n: nat, entries: seq<Entry>, all: bool)
    requires n <= |origins| == |docs|
  {
    && |entries| <= n && Ascending(Positions(entries))
    && (forall o :: o in Positions(entries) ==> o in origins[..n])
    && (forall s: nat :: CountIn(Positions(entries), s) <= CountIn(origins[..n], s))
    && (forall e :: e in entries ==> Features.ListSound(e.features))
    && (all ==> |entries| == n && forall i {:trigger entries[i]} {:trigger docs[i]} :: 0 <= i < n ==>
          entries[i].origin == origins[i] && Features.Elements(entries[i].features) == Required(docs[i].declaration))
  }

  lemma {:induction false} NothingListed(origins: seq<Origin>, docs: seq<Selected>, all: bool)
    requires |origins| == |docs|
    ensures Listing(origins, docs, 0, [], all)
  {
  }

  lemma {:induction false} PositionsMore(entries: seq<Entry>, e: Entry)
    ensures Positions(entries + [e]) == Positions(entries) + [e.origin]
  {
  }

  lemma {:induction false} ListingSkips(origins: seq<Origin>, docs: seq<Selected>, n: nat, entries: seq<Entry>,
                                        all: bool,
                                        checked: Selected)
    requires n < |origins| == |docs| && Listing(origins, docs, n, entries, all)
    ensures Listing(origins, docs[n := checked], n + 1, entries, false)
  {
    hide CountIn, Features.ListSound, Features.Elements, Required;
    assert origins[..n + 1] == origins[..n] + [origins[n]];
    forall s: nat
      ensures CountIn(Positions(entries), s) <= CountIn(origins[..n + 1], s)
    {
      Reading.CountMore(origins[..n], origins[n], s);
    }
  }

  lemma {:induction false} ListingGrows(origins: seq<Origin>, docs: seq<Selected>, n: nat, entries: seq<Entry>,
                                        all: bool,
                                        checked: Selected, features: seq<string>)
    requires n < |origins| == |docs| && Listing(origins, docs, n, entries, all) && Ascending(origins)
    requires Features.Elements(features) == Required(checked.declaration) && Features.ListSound(features)
    ensures Listing(origins, docs[n := checked], n + 1, entries + [Entry(origins[n], features)], all)
  {
    hide CountIn, Features.ListSound, Features.Elements, Required;
    var e := Entry(origins[n], features);
    var before, after := Positions(entries), Positions(entries + [e]);
    PositionsMore(entries, e);
    assert origins[..n + 1] == origins[..n] + [origins[n]];
    forall s: nat
      ensures CountIn(after, s) <= CountIn(origins[..n + 1], s)
    {
      Reading.CountMore(before, origins[n], s);
      Reading.CountMore(origins[..n], origins[n], s);
    }
    forall i, j | 0 <= i < j < |after|
      ensures Reading.Before(after[i], after[j])
    {
      if j == |before| {
        assert before[i] in before && before[i] in origins[..n];
        var k :| 0 <= k < n && origins[..n][k] == before[i];
        assert Reading.Before(origins[k], origins[n]);
      }
    }
  }

  /** What is kept without the last claim holds of any weaker one. */
  lemma {:induction false} ListingWeaker(origins: seq<Origin>, docs: seq<Selected>, n: nat, entries: seq<Entry>,
                                         all: bool)
    requires n <= |origins| == |docs| && Listing(origins, docs, n, entries, all)
    ensures Listing(origins, docs, n, entries, false)
  {
    hide CountIn, Features.ListSound, Features.Elements, Required, Ascending;
  }

  /** Wherever admission stops, the lists are sound beside the summaries; a list for every position covers them. */
  lemma {:induction false} ListingSound(summaries: seq<Summary>, origins: seq<Origin>, docs: seq<Selected>, n: nat,
                                        entries: seq<Entry>, all: bool)
    requires n <= |origins| == |docs| && Listing(origins, docs, n, entries, all) && Covers(summaries, origins)
    ensures EntriesSound(summaries, Positions(entries), all && n == |origins|)
  {
    hide Features.ListSound, Features.Elements, Required, CountIn, PlanCheck.ValidPosition, Total;
    var positions := Positions(entries);
    forall o | o in positions
      ensures PlanCheck.ValidPosition(Reading.Counts(summaries), o)
    {
      assert o in origins[..n] && o in origins;
    }
    forall i, j | 0 <= i < j < |positions|
      ensures positions[i] != positions[j]
    {
      assert Reading.Before(positions[i], positions[j]);
    }
    forall i {:trigger summaries[i]} | 0 <= i < |summaries|
      ensures CountIn(positions, i + 1) <= summaries[i].products
      ensures all && n == |origins| ==> CountIn(positions, i + 1) == summaries[i].products
    {
      CountPrefix(origins, n, i + 1);
      assert CountIn(origins, i + 1) == summaries[i].products;
      if all && n == |origins| {
        assert positions == origins;
      }
    }
  }

  lemma {:induction false} CountPrefix(origins: seq<Origin>, n: nat, source: nat)
    requires n <= |origins|
    ensures CountIn(origins[..n], source) <= CountIn(origins, source)
  {
    CountJoins(origins[..n], origins[n..], source);
    assert origins[..n] + origins[n..] == origins;
  }

  // ---------------------------------------------------------------- the loop over declarations

  /** The checked declarations stand where they were read; the first n of an admissible selection are unobserved. */
  ghost predicate Followed(selected: seq<Selected>, namespace: string, docs: seq<Selected>, n: nat, all: bool)
    requires n <= |selected|
  {
    && |docs| == |selected| && Origins(docs) == Origins(selected)
    && (all ==> forall i {:trigger docs[i]} :: 0 <= i < n ==>
        docs[i].declaration == Unobserved(Resolved(selected, namespace, i)))
  }

  lemma {:induction false} FollowedStep(selected: seq<Selected>, namespace: string, docs: seq<Selected>, n: nat,
                                        before: bool,
                                        all: bool, checked: Declaration)
    requires n < |selected| && Followed(selected, namespace, docs, n, before) && (all ==> before)
    requires all ==> checked == Unobserved(Resolved(selected, namespace, n))
    ensures n < |docs| && Followed(selected, namespace, docs[n := Selected(docs[n].origin, checked)], n + 1, all)
  {
    hide Resolved;
    var updated := docs[n := Selected(docs[n].origin, checked)];
    assert Origins(updated) == Origins(docs);
  }

  lemma {:induction false} FollowedStart(selected: seq<Selected>, namespace: string, all: bool)
    ensures Followed(selected, namespace, selected, 0, all)
  {
  }

  /** All findings of the first n declarations, with the names and identifiers claimed by them. */
  function Admissions(selected: seq<Selected>, namespace: string, apiOnly: bool, n: nat)
    : (seq<Finding>, set<string>, set<string>)
    requires n <= |selected|
  {
    if n == 0 then ([], {}, {})
    else
      var (found, names, ids) := Admissions(selected, namespace, apiOnly, n - 1);
      var d := Resolved(selected, namespace, n - 1);
      var (claimed, identified) := Claims(d, apiOnly, names, ids);
      (found + Admission(n, d, apiOnly, names, ids).findings, claimed, identified)
  }

  lemma {:induction false} NextAdmission(selected: seq<Selected>, namespace: string, apiOnly: bool, n: nat,
                                         found: seq<Finding>,
                                         names: set<string>, ids: set<string>)
    requires n < |selected| && (found, names, ids) == Admissions(selected, namespace, apiOnly, n)
    ensures var d := Resolved(selected, namespace, n);
            var (claimed, identified) := Claims(d, apiOnly, names, ids);
            Admissions(selected, namespace, apiOnly, n + 1) ==
            (found + Admission(n + 1, d, apiOnly, names, ids).findings, claimed, identified)
  {
    hide Admission, Claims, Resolved;
  }

  lemma {:induction false} NoAdmission(selected: seq<Selected>, namespace: string, apiOnly: bool)
    ensures Admissions(selected, namespace, apiOnly, 0) == ([], {}, {})
  {
  }

  /** Findings are never taken back. */
  lemma {:induction false} AdmissionsGrow(selected: seq<Selected>, namespace: string, apiOnly: bool, n: nat, m: nat)
    requires n <= m <= |selected|
    ensures |Admissions(selected, namespace, apiOnly, n).0| <= |Admissions(selected, namespace, apiOnly, m).0|
    decreases m
  {
    hide Admission, Claims, Resolved;
    if n < m {
      AdmissionsGrow(selected, namespace, apiOnly, n, m - 1);
    }
  }

  /** Everything the loop over declarations keeps. */
  ghost predicate Going(selected: seq<Selected>, namespace: string, apiOnly: bool, n: nat, was: seq<Finding>,
                        findings: seq<Finding>,
                        names: set<string>, ids: set<string>, docs: seq<Selected>, entries: seq<Entry>)
  {
    && n <= |selected| && was <= findings
    && Admitting(selected, namespace, apiOnly, n, findings[|was|..], names, ids)
    && (findings[|was|..], names, ids) == Admissions(selected, namespace, apiOnly, n)
    && Followed(selected, namespace, docs, n, Admissible(selected, namespace, apiOnly, n))
    && Listing(Origins(selected), docs, n, entries, Admissible(selected, namespace, apiOnly, n))
  }

  lemma {:induction false} GoingStart(selected: seq<Selected>, namespace: string, apiOnly: bool, was: seq<Finding>)
    ensures Going(selected, namespace, apiOnly, 0, was, was, {}, {}, selected, [])
  {
    NothingAdmitted(selected, namespace, apiOnly);
    FollowedStart(selected, namespace, Admissible(selected, namespace, apiOnly, 0));
    NothingListed(Origins(selected), selected, Admissible(selected, namespace, apiOnly, 0));
    NoAdmission(selected, namespace, apiOnly);
    assert was[|was|..] == [];
    hide Admissible, Admitting, Followed, Listing, Admissions;
  }

  lemma {:induction false} GoingMore(selected: seq<Selected>, namespace: string, apiOnly: bool, n: nat,
                                     was: seq<Finding>,
                                     findings: seq<Finding>, names: set<string>, ids: set<string>, docs: seq<Selected>,
                                     entries: seq<Entry>, checked: Declaration, features: seq<string>,
                                     after: seq<Finding>)
    requires n < |selected| && Going(selected, namespace, apiOnly, n, was, findings, names, ids, docs, entries)
    requires Ascending(Origins(selected))
    requires var d := Resolved(selected, namespace, n);
             var outcome := Admission(n + 1, d, apiOnly, names, ids);
             && after == findings + outcome.findings
             && (outcome.admitted ==> checked == Unobserved(d) && Features.ListSound(features)
                                      && Features.Elements(features) == Required(checked))
    ensures n < |docs|
    ensures var d := Resolved(selected, namespace, n);
            var (claimed, identified) := Claims(d, apiOnly, names, ids);
            var more := if Admission(n + 1, d, apiOnly, names, ids).admitted then entries +
                        [Entry(docs[n].origin, features)]
                        else entries;
            Going(selected, namespace, apiOnly, n + 1, was, after, claimed, identified,
                  docs[n := Selected(docs[n].origin, checked)], more)
  {
    hide *;
    var d := Resolved(selected, namespace, n);
    var outcome := Admission(n + 1, d, apiOnly, names, ids);
    GoingIs(selected, namespace, apiOnly, n, was, findings, names, ids, docs, entries);
    AdmittingMore(selected, namespace, apiOnly, n, n + 1, findings[|was|..], names, ids);
    AdmissibleLess(selected, namespace, apiOnly, n);
    var before, all := Admissible(selected, namespace, apiOnly, n), Admissible(selected, namespace, apiOnly, n + 1);
    FollowedStep(selected, namespace, docs, n, before, all, checked);
    var origins := Origins(selected);
    assert Origins(docs) == origins;
    var more := if outcome.admitted then entries + [Entry(docs[n].origin, features)] else entries;
    var updated := Selected(docs[n].origin, checked);
    ListingStep(origins, docs, n, entries, before, all, outcome.admitted, updated, features);
    FoundMore(was, findings, outcome.findings);
    NextAdmission(selected, namespace, apiOnly, n, findings[|was|..], names, ids);
    var (claimed, identified) := Claims(d, apiOnly, names, ids);
    GoingIs(selected, namespace, apiOnly, n + 1, was, after, claimed, identified, docs[n := updated], more);
  }

  lemma {:induction false} FoundMore(was: seq<Finding>, findings: seq<Finding>, found: seq<Finding>)
    requires was <= findings
    ensures was <= findings + found && (findings + found)[|was|..] == findings[|was|..] + found
  {
  }

  lemma {:induction false} ListingStep(origins: seq<Origin>, docs: seq<Selected>, n: nat, entries: seq<Entry>,
                                       before: bool,
                                       all: bool, admitted: bool, updated: Selected, features: seq<string>)
    requires n < |origins| == |docs| && Listing(origins, docs, n, entries, before) && Ascending(origins)
    requires all ==> before && admitted
    requires admitted ==> Features.Elements(features) == Required(updated.declaration) && Features.ListSound(features)
    ensures Listing(origins, docs[n := updated], n + 1,
                    if admitted then entries + [Entry(origins[n], features)] else entries, all)
  {
    hide Listing, Ascending, Features.Elements, Features.ListSound, Required;
    if admitted {
      ListingGrows(origins, docs, n, entries, before, updated, features);
      if !all {
        ListingWeaker(origins, docs[n := updated], n + 1, entries + [Entry(origins[n], features)], before);
      }
    } else {
      ListingSkips(origins, docs, n, entries, before, updated);
    }
  }

  lemma {:induction false} GoingIs(selected: seq<Selected>, namespace: string, apiOnly: bool, n: nat, was: seq<Finding>,
                                   findings: seq<Finding>, names: set<string>, ids: set<string>, docs: seq<Selected>,
                                   entries: seq<Entry>)
    requires (n <= |selected| == |docs|) ||
             Going(selected, namespace, apiOnly, n, was, findings, names, ids, docs, entries)
    ensures n <= |selected| == |docs|
    ensures Going(selected, namespace, apiOnly, n, was, findings, names, ids, docs, entries) <==>
            && was <= findings
            && Admitting(selected, namespace, apiOnly, n, findings[|was|..], names, ids)
            && (findings[|was|..], names, ids) == Admissions(selected, namespace, apiOnly, n)
            && Followed(selected, namespace, docs, n, Admissible(selected, namespace, apiOnly, n))
            && Listing(Origins(selected), docs, n, entries, Admissible(selected, namespace, apiOnly, n))
    ensures Followed(selected, namespace, docs, n, Admissible(selected, namespace, apiOnly, n)) ==>
              Origins(docs) == Origins(selected)
  {
    hide Admitting, Listing, Admissible, Resolved, Admissions;
  }

  lemma {:induction false} AdmissibleLess(selected: seq<Selected>, namespace: string, apiOnly: bool, n: nat)
    requires n < |selected|
    ensures Admissible(selected, namespace, apiOnly, n + 1) ==> Admissible(selected, namespace, apiOnly, n)
  {
    AdmissibleStep(selected, namespace, apiOnly, n);
    hide Admissible, Publishable, Taken, Names, Identifiers;
  }

  /** What the loop over declarations hands on. */
  ghost predicate AllAdmitted(selected: seq<Selected>, namespace: string, apiOnly: bool, added: seq<Finding>,
                              docs: seq<Selected>,
                              entries: seq<Entry>, stopped: bool)
  {
    && Simple(added) && |docs| == |selected|
    && |entries| <= |selected| && (forall e :: e in entries ==> Features.ListSound(e.features))
    && (stopped ==> added != [])
    && (stopped ==> |added| <= |Admissions(selected, namespace, apiOnly, |selected|).0| + 1)
    && (!stopped ==> added == Admissions(selected, namespace, apiOnly, |selected|).0)
    && var all := !stopped && Admissible(selected, namespace, apiOnly, |selected|);
       && (forall summaries :: Covers(summaries, Origins(selected)) ==>
           EntriesSound(summaries, Positions(entries), all))
       && (!stopped ==> (added == [] && InterfaceFree(selected, apiOnly, |selected|) <==> all))
       && (all ==>
             && Followed(selected, namespace, docs, |selected|, true)
             && Listing(Origins(selected), docs, |selected|, entries, true))
  }

  lemma {:induction false} GoingStops(selected: seq<Selected>, namespace: string, apiOnly: bool, n: nat,
                                      was: seq<Finding>,
                                      findings: seq<Finding>, names: set<string>, ids: set<string>, docs: seq<Selected>,
                                      entries: seq<Entry>, f: Finding, after: seq<Finding>)
    requires Going(selected, namespace, apiOnly, n, was, findings, names, ids, docs, entries)
    requires f.severity == Error && PublicCode(f.code) && f.steps == [] && after == findings + [f]
    ensures was <= after && AllAdmitted(selected, namespace, apiOnly, after[|was|..], docs, entries, true)
  {
    hide Admissible, InterfaceFree, Names, Identifiers, PublicCode, EntriesSound, CountIn, Ascending, Covers,
         Features.ListSound;
    hide Admissions;
    AdmissionsGrow(selected, namespace, apiOnly, n, |selected|);
    assert after[|was|..] == findings[|was|..] + [f];
    var all := Admissible(selected, namespace, apiOnly, n);
    ListingWeaker(Origins(selected), docs, n, entries, all);
    forall summaries | Covers(summaries, Origins(selected))
      ensures EntriesSound(summaries, Positions(entries), false)
    {
      ListingSound(summaries, Origins(selected), docs, n, entries, false);
    }
  }

  lemma {:induction false} GoingEnds(selected: seq<Selected>, namespace: string, apiOnly: bool, was: seq<Finding>,
                                     findings: seq<Finding>, names: set<string>, ids: set<string>, docs: seq<Selected>,
                                     entries: seq<Entry>)
    requires Going(selected, namespace, apiOnly, |selected|, was, findings, names, ids, docs, entries)
    ensures was <= findings && AllAdmitted(selected, namespace, apiOnly, findings[|was|..], docs, entries, false)
  {
    var all := Admissible(selected, namespace, apiOnly, |selected|);
    ListingLists(Origins(selected), docs, |selected|, entries, all);
    hide Admissible, InterfaceFree, Names, Identifiers, EntriesSound, Covers, Features.ListSound, Listing, Simple,
         Admissions;
    forall summaries | Covers(summaries, Origins(selected))
      ensures EntriesSound(summaries, Positions(entries), all)
    {
      ListingSound(summaries, Origins(selected), docs, |selected|, entries, all);
    }
  }

  lemma {:induction false} ListingLists(origins: seq<Origin>, docs: seq<Selected>, n: nat, entries: seq<Entry>,
                                        all: bool)
    requires n <= |origins| == |docs| && Listing(origins, docs, n, entries, all)
    ensures |entries| <= n && forall e :: e in entries ==> Features.ListSound(e.features)
  {
    hide CountIn, Features.ListSound, Ascending;
  }

  /** Admits every declaration of a selection, unless the deadline passes. */
  method AdmitAll(context: Context, report: Report, selected: seq<Selected>, namespace: string, apiOnly: bool)
    returns (docs: seq<Selected>, entries: seq<Entry>, stopped: bool)
    requires report.Valid() && Ascending(Origins(selected))
    modifies context, report
    ensures report.Valid() && report.documents == old(report.documents) && report.failure == old(report.failure)
    ensures Placed(old(report.details), report.details, report.documents, report.failure)
    ensures old(report.findings) <= report.findings
    ensures AllAdmitted(selected, namespace, apiOnly, report.findings[|old(report.findings)|..], docs, entries, stopped)
    ensures context.deadline.None? ==> !stopped
  {
    hide *;
    ghost var was, details := report.findings, report.details;
    docs, entries := selected, [];
    var names: set<string>, ids: set<string> := {}, {};
    GoingStart(selected, namespace, apiOnly, was);
    PlacedSame(details, report.documents, report.failure);
    for index := 0 to |selected|
      invariant report.Valid() && report.documents == old(report.documents) && report.failure == old(report.failure)
      invariant Placed(details, report.details, report.documents, report.failure)
      invariant Going(selected, namespace, apiOnly, index, was, report.findings, names, ids, docs, entries)
    {
      ghost var findings, reached := report.findings, report.details;
      GoingIs(selected, namespace, apiOnly, index, was, findings, names, ids, docs, entries);
      var late := context.Expired();
      if late {
        ValidationLimitIsPublic();
        report.AddDetail(index + 1, Error, "ValidationLimit", Nowhere, [], false);
        PlacedJoins(details, reached, report.details, report.documents, report.failure);
        GoingStops(selected, namespace, apiOnly, index, was, findings, names, ids, docs, entries,
                   Finding(index + 1, Error, "ValidationLimit", Nowhere, [], false), report.findings);
        stopped := true;
        return;
      }
      var d := Resolved(selected, namespace, index);
      var admitted, checked, claimed, identified := Admit(report, index + 1, d, apiOnly, names, ids);
      PlacedJoins(details, reached, report.details, report.documents, report.failure);
      var features := DeclaredFeatures(checked);
      GoingMore(selected, namespace, apiOnly, index, was, findings, names, ids, docs, entries, checked, features,
                report.findings);
      if admitted {
        entries := entries + [Entry(docs[index].origin, features)];
      }
      docs := docs[index := Selected(docs[index].origin, checked)];
      names, ids := claimed, identified;
    }
    GoingEnds(selected, namespace, apiOnly, was, report.findings, names, ids, docs, entries);
    stopped := false;
  }

  lemma {:induction false} ValidationLimitIsPublic()
    ensures PublicCode("ValidationLimit")
  {
  }
}
