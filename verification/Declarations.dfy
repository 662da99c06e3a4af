/** Declarations as a publisher submits them: what they require of a deployment, and what admitting one finds. */
module Declarations {
  import opened Products
  import opened Bundle
  import opened Findings
  import Features
  import PlanCheck

  const AdmissionCodes: set<string> :=
    {"UnknownField", "InvalidField", "RequiredField", "DuplicateListItem", "CrossFieldInvalid"}

  type AdmissionCode = c: string | c in AdmissionCodes witness "InvalidField"

  /** One finding of the object metadata or schema validators. */
  datatype Complaint = Complaint(code: AdmissionCode, path: string)

  /**
   What the validators answer about one declaration: the metadata complaints, whether the metadata is a mapping,
   the schema complaints, and whether the user interface, the preview and the catalog entry are publishable. The
   preview is encoded once more at the end.
   */
  datatype Verdict = Verdict(metadata: seq<Complaint>, mapping: bool, schema: seq<Complaint>, ui: bool, preview: bool,
                             catalog: bool, again: bool)

  /** A declared product; ui is its user interface, holding the API version of a declared contract. */
  datatype Declaration = Declaration(product: Product, id: string, ui: Option<Option<string>>, checks: seq<string>,
                                     dataset: bool, verdict: Verdict)

  /** A declaration and where it was read. */
  datatype Selected = Selected(origin: Origin, declaration: Declaration)

  function DocumentOf(s: Selected): Document
  {
    Document(s.origin, s.declaration.product)
  }

  function DocumentsOf(selected: seq<Selected>): (docs: seq<Document>)
    ensures |docs| == |selected|
    ensures forall i {:trigger docs[i]} {:trigger selected[i]} :: 0 <= i < |docs| ==> docs[i] == DocumentOf(selected[i])
  {
    seq(|selected|, i requires 0 <= i < |selected| => DocumentOf(selected[i]))
  }

  /** The preview of a declaration. */
  function Preview(d: Declaration): PlanCheck.Descriptor
  {
    PlanCheck.Descriptor(d.product.key.ns, d.product.key.name, d.id, d.product.inputs, d.product.outputs,
                         if d.ui.Some? then d.ui.value else None)
  }

  // ---------------------------------------------------------------- operational requirements

  function When(condition: bool, feature: string): set<string>
  {
    if condition then {feature} else {}
  }

  /** The features a declaration asks for. */
  function Required(d: Declaration): set<string>
  {
    When(d.product.declares.source, Features.PROVISIONED_SOURCES)
    + When(d.product.declares.source && d.product.declares.engine, Features.ENGINE_PROVIDERS)
    + When(d.product.declares.connector, Features.CONNECTOR_READINESS)
    + When(d.product.inputs != [], Features.COMPOSITION)
    + When(d.checks != [], Features.CONTRACT_READINESS)
    + When(d.ui.Some? && d.ui.value.Some?, Features.UI_CONTRACT)
    + When(d.ui == Some(Some(PlanCheck.UI_V2)), Features.UI_APPEARANCE)
    + When(d.dataset, Features.DCAT_CATALOG)
  }

  function With(condition: bool, feature: string, others: set<string>): set<string>
  {
    if condition then others + {feature} else others
  }

  lemma {:induction false} WithWhen(condition: bool, feature: string, others: set<string>)
    ensures With(condition, feature, others) == others + When(condition, feature)
  {
  }

  lemma {:induction false} RequiredIs(d: Declaration, required: set<string>)
    requires required ==
             With(d.dataset, Features.DCAT_CATALOG,
                  With(d.ui.Some? && d.ui.value.Some? && d.ui.value.value == PlanCheck.UI_V2, Features.UI_APPEARANCE,
                       With(d.ui.Some? && d.ui.value.Some?, Features.UI_CONTRACT,
                            With(|d.checks| != 0, Features.CONTRACT_READINESS,
                                 With(|d.product.inputs| != 0, Features.COMPOSITION,
                                      With(d.product.declares.connector, Features.CONNECTOR_READINESS,
                                           With(d.product.declares.source && d.product.declares.engine,
                                                Features.ENGINE_PROVIDERS,
                                                With(d.product.declares.source, Features.PROVISIONED_SOURCES, {}))))))))
    ensures required == Required(d)
  {
    hide With, When;
    var none: set<string> := {};
    var s0 := With(d.product.declares.source, Features.PROVISIONED_SOURCES, none);
    WithWhen(d.product.declares.source, Features.PROVISIONED_SOURCES, none);
    var s1 := With(d.product.declares.source && d.product.declares.engine, Features.ENGINE_PROVIDERS, s0);
    WithWhen(d.product.declares.source && d.product.declares.engine, Features.ENGINE_PROVIDERS, s0);
    var s2 := With(d.product.declares.connector, Features.CONNECTOR_READINESS, s1);
    WithWhen(d.product.declares.connector, Features.CONNECTOR_READINESS, s1);
    var s3 := With(|d.product.inputs| != 0, Features.COMPOSITION, s2);
    WithWhen(|d.product.inputs| != 0, Features.COMPOSITION, s2);
    var s4 := With(|d.checks| != 0, Features.CONTRACT_READINESS, s3);
    WithWhen(|d.checks| != 0, Features.CONTRACT_READINESS, s3);
    var s5 := With(d.ui.Some? && d.ui.value.Some?, Features.UI_CONTRACT, s4);
    WithWhen(d.ui.Some? && d.ui.value.Some?, Features.UI_CONTRACT, s4);
    var v2 := d.ui.Some? && d.ui.value.Some? && d.ui.value.value == PlanCheck.UI_V2;
    assert v2 <==> d.ui == Some(Some(PlanCheck.UI_V2));
    WithWhen(v2, Features.UI_APPEARANCE, s5);
    WithWhen(d.dataset, Features.DCAT_CATALOG, With(v2, Features.UI_APPEARANCE, s5));
    assert none + When(d.product.declares.source, Features.PROVISIONED_SOURCES) ==
           When(d.product.declares.source, Features.PROVISIONED_SOURCES);
  }

  /** The gate requirements of one declaration: known features, in increasing order. */
  method DeclaredFeatures(d: Declaration) returns (list: seq<string>)
    ensures Features.Elements(list) == Required(d) && Features.ListSound(list)
  {
    hide Required, Features.ListSound, Features.Elements, PlanCheck.UI_V2;
    hide Features.PROVISIONED_SOURCES, Features.ENGINE_PROVIDERS, Features.CONNECTOR_READINESS, Features.COMPOSITION;
    hide Features.CONTRACT_READINESS, Features.UI_CONTRACT, Features.UI_APPEARANCE, Features.DCAT_CATALOG;
    var required: set<string> := {};
    if d.product.declares.source {
      required := required + {Features.PROVISIONED_SOURCES};
      if d.product.declares.engine {
        required := required + {Features.ENGINE_PROVIDERS};
      }
    }
    ghost var s1 := With(d.product.declares.source && d.product.declares.engine, Features.ENGINE_PROVIDERS,
                         With(d.product.declares.source, Features.PROVISIONED_SOURCES, {}));
    assert required == s1;
    if d.product.declares.connector {
      required := required + {Features.CONNECTOR_READINESS};
    }
    ghost var s2 := With(d.product.declares.connector, Features.CONNECTOR_READINESS, s1);
    assert required == s2;
    if |d.product.inputs| != 0 {
      required := required + {Features.COMPOSITION};
    }
    ghost var s3 := With(|d.product.inputs| != 0, Features.COMPOSITION, s2);
    assert required == s3;
    if |d.checks| != 0 {
      required := required + {Features.CONTRACT_READINESS};
    }
    ghost var s4 := With(|d.checks| != 0, Features.CONTRACT_READINESS, s3);
    assert required == s4;
    if d.ui.Some? && d.ui.value.Some? {
      required := required + {Features.UI_CONTRACT};
      if d.ui.value.value == PlanCheck.UI_V2 {
        required := required + {Features.UI_APPEARANCE};
      }
    }
    ghost var s5 := With(d.ui.Some? && d.ui.value.Some? && d.ui.value.value == PlanCheck.UI_V2, Features.UI_APPEARANCE,
                         With(d.ui.Some? && d.ui.value.Some?, Features.UI_CONTRACT, s4));
    assert required == s5;
    if d.dataset {
      required := required + {Features.DCAT_CATALOG};
    }
    assert required == With(d.dataset, Features.DCAT_CATALOG, s5);
    hide With;
    RequiredIs(d, required);
    RequiredKnown(d);
    list := Features.Listed(required);
    Features.KnownListSound(list);
  }

  lemma {:induction false} WhenKnown(condition: bool, i: nat)
    requires i < |Features.KnownList|
    ensures When(condition, Features.KnownList[i]) <= Features.Known
  {
  }

  lemma {:induction false} RequiredKnown(d: Declaration)
    ensures Required(d) <= Features.Known
  {
    hide When;
    WhenKnown(d.product.declares.source, 0);
    WhenKnown(d.product.declares.source && d.product.declares.engine, 1);
    WhenKnown(d.product.declares.connector, 2);
    WhenKnown(d.product.inputs != [], 3);
    WhenKnown(d.checks != [], 4);
    WhenKnown(d.ui.Some? && d.ui.value.Some?, 5);
    WhenKnown(d.ui == Some(Some(PlanCheck.UI_V2)), 6);
    WhenKnown(d.dataset, 7);
    hide Features.Known;
  }

  /** What the reader asks of a descriptor's features is among what its declaration asks for. */
  lemma {:induction false} DescriptorServed(d: Declaration)
    ensures PlanCheck.RequiredFeatures(Preview(d)) <= Required(d)
  {
  }

  // ---------------------------------------------------------------- names

  predicate Alphanumeric(c: char)
  {
    'a' <= c <= 'z' || '0' <= c <= '9'
  }

  /** A label of at most 63 characters (RFC 1123). */
  predicate DnsLabel(s: string)
  {
    && 1 <= |s| <= 63 && Alphanumeric(s[0]) && Alphanumeric(s[|s| - 1])
    && forall i :: 0 <= i < |s| ==> Alphanumeric(s[i]) || s[i] == '-'
  }

  /** Labels separated by single dots, at most 253 characters together. */
  predicate DnsSubdomain(s: string)
  {
    && 1 <= |s| <= 253 && Alphanumeric(s[0]) && Alphanumeric(s[|s| - 1])
    && forall i :: 0 <= i < |s| ==> SubdomainAt(s, i)
  }

  predicate SubdomainAt(s: string, i: nat)
    requires i < |s|
  {
    || Alphanumeric(s[i]) || s[i] == '-'
    || (s[i] == '.' && 0 < i < |s| - 1 && Alphanumeric(s[i - 1]) && Alphanumeric(s[i + 1]))
  }

  /** The namespace selected for the whole check applies to declarations without one. */
  function Named(d: Declaration, namespace: string): Declaration
  {
    if d.product.key.ns == "" then d.(product := d.product.(key := Key(namespace, d.product.key.name))) else d
  }

  /** A declaration is checked without any imported observation. */
  function Unobserved(d: Declaration): Declaration
  {
    d.(product := d.product.(status := NoStatus, generation := 0))
  }

  // ---------------------------------------------------------------- admission

  /** What is found, and whether the declaration goes on to the graph. */
  datatype Outcome = Outcome(findings: seq<Finding>, admitted: bool)

  function Refused(number: nat, code: string, path: string): Outcome
  {
    Outcome([Finding(number, Error, code, At(path), [], false)], false)
  }

  function Complaints(number: nat, complaints: seq<Complaint>, n: nat): seq<Finding>
    requires n <= |complaints|
  {
    if n == 0 then []
    else Complaints(number, complaints, n - 1)
         + [Finding(number, Error, complaints[n - 1].code, At(complaints[n - 1].path), [], false)]
  }

  function OutputNames(d: Declaration): set<string>
  {
    set o | o in d.product.outputs :: o.name
  }

  /** Contract checks of outputs that are not declared, among the first n. */
  function UndeclaredChecks(number: nat, d: Declaration, n: nat): seq<Finding>
    requires n <= |d.checks|
  {
    if n == 0 then []
    else UndeclaredChecks(number, d, n - 1)
         + (if d.checks[n - 1] in OutputNames(d) then []
            else [Finding(number, Error, "ContractOutputNotFound", CheckOf(n - 1), [], false)])
  }

  /** The declaration is well-formed, and takes part in the identity check. */
  predicate WellFormed(d: Declaration, apiOnly: bool)
  {
    && DnsLabel(d.product.key.ns) && DnsSubdomain(d.product.key.name)
    && d.verdict.metadata == [] && d.verdict.mapping && d.verdict.schema == [] && (apiOnly ==> d.ui.None?)
  }

  predicate Taken(d: Declaration, names: set<string>, ids: set<string>)
  {
    Text(d.product.key) in names || d.id in ids
  }

  function Admission(number: nat, d: Declaration, apiOnly: bool, names: set<string>, ids: set<string>): Outcome
  {
    if d.product.key.ns == "" then Refused(number, "NamespaceRequired", "/metadata/namespace")
    else if !DnsLabel(d.product.key.ns) || !DnsSubdomain(d.product.key.name) then
      Refused(number, "AdmissionInvalid", "/metadata")
    else if d.verdict.metadata != [] then
      Outcome(Complaints(number, d.verdict.metadata, |d.verdict.metadata|), false)
    else if !d.verdict.mapping then Refused(number, "AdmissionInvalid", "/metadata")
    else if d.verdict.schema != [] then Outcome(Complaints(number, d.verdict.schema, |d.verdict.schema|), false)
    else if apiOnly && d.ui.Some? then Outcome([], false)
    else if Taken(d, names, ids) then Refused(number, "IdentityConflict", "/metadata")
    else if d.ui.Some? && !d.verdict.ui then Refused(number, "InvalidUI", "/spec/ui")
    else if !d.verdict.preview || !d.verdict.catalog then Refused(number, "InvalidPublicMetadata", "/spec")
    else Outcome(UndeclaredChecks(number, d, |d.checks|), true)
  }

  /** A declaration fit for publication, on its own. */
  ghost predicate Publishable(d: Declaration, apiOnly: bool)
  {
    && WellFormed(d, apiOnly) && (d.ui.Some? ==> d.verdict.ui) && d.verdict.preview && d.verdict.catalog
    && forall c :: c in d.checks ==> c in OutputNames(d)
  }

  lemma {:induction false} ComplaintsFound(number: nat, complaints: seq<Complaint>, n: nat)
    requires n <= |complaints|
    ensures |Complaints(number, complaints, n)| == n
    decreases n
  {
    if n > 0 {
      ComplaintsFound(number, complaints, n - 1);
    }
  }

  lemma {:induction false} NoUndeclaredChecks(number: nat, d: Declaration, n: nat)
    requires n <= |d.checks|
    ensures UndeclaredChecks(number, d, n) == [] <==> forall i :: 0 <= i < n ==> d.checks[i] in OutputNames(d)
    decreases n
  {
    if n > 0 {
      NoUndeclaredChecks(number, d, n - 1);
    }
  }

  /**
   Nothing is found in an unclaimed declaration exactly when it is publishable, apart from user interfaces in an
   API-only check, which reading has already refused.
   */
  lemma {:induction false} AdmissionMeans(number: nat, d: Declaration, apiOnly: bool, names: set<string>,
                                          ids: set<string>)
    ensures var outcome := Admission(number, d, apiOnly, names, ids);
            outcome.findings == [] && outcome.admitted <==> Publishable(d, apiOnly) && !Taken(d, names, ids)
    ensures var outcome := Admission(number, d, apiOnly, names, ids);
            outcome.findings == [] && !outcome.admitted ==> apiOnly && d.ui.Some?
  {
    ComplaintsFound(number, d.verdict.metadata, |d.verdict.metadata|);
    ComplaintsFound(number, d.verdict.schema, |d.verdict.schema|);
    NoUndeclaredChecks(number, d, |d.checks|);
    LabelsAreText(d.product.key.ns);
    hide DnsLabel, DnsSubdomain, Taken, Complaints, UndeclaredChecks, OutputNames;
    assert (forall i :: 0 <= i < |d.checks| ==> d.checks[i] in OutputNames(d)) <==>
           (forall c :: c in d.checks ==> c in OutputNames(d));
  }

  lemma {:induction false} LabelsAreText(s: string)
    ensures DnsLabel(s) ==> s != "" && Ascii(s) && '/' !in s && |s| <= 63
  {
  }

  lemma {:induction false} SubdomainsAreText(s: string)
    ensures DnsSubdomain(s) ==> Ascii(s) && |s| <= 253
  {
    if DnsSubdomain(s) {
      forall i | 0 <= i < |s|
        ensures s[i] as int < 0x80
      {
        assert SubdomainAt(s, i);
      }
    }
  }

  /** Findings about a declaration are errors at its number, without a witness. */
  ghost predicate Plain(findings: seq<Finding>, number: nat)
  {
    forall f :: f in findings ==> f.severity == Error && f.document == number && f.steps == [] && PublicCode(f.code)
  }

  lemma {:induction false} OnePlain(number: nat, code: string, place: Place)
    requires PublicCode(code)
    ensures Plain([Finding(number, Error, code, place, [], false)], number)
  {
    hide PublicCode;
  }

  lemma {:induction false} PlainJoins(a: seq<Finding>, b: seq<Finding>, number: nat)
    requires Plain(a, number) && Plain(b, number)
    ensures Plain(a + b, number)
  {
    hide PublicCode;
  }

  lemma {:induction false} AdmissionCodePublic(c: AdmissionCode)
    ensures PublicCode(c)
  {
  }

  lemma {:induction false} ComplaintsPlain(number: nat, complaints: seq<Complaint>, n: nat)
    requires n <= |complaints|
    ensures Plain(Complaints(number, complaints, n), number)
    decreases n
  {
    hide PublicCode, Plain;
    if n > 0 {
      var last := complaints[n - 1];
      ComplaintsPlain(number, complaints, n - 1);
      AdmissionCodePublic(last.code);
      OnePlain(number, last.code, At(last.path));
      PlainJoins(Complaints(number, complaints, n - 1), [Finding(number, Error, last.code, At(last.path), [], false)],
                 number);
    } else {
      NothingPlain(number);
    }
  }

  lemma {:induction false} NothingPlain(number: nat)
    ensures Plain([], number)
  {
  }

  lemma {:induction false} ChecksPlain(number: nat, d: Declaration, n: nat)
    requires n <= |d.checks|
    ensures Plain(UndeclaredChecks(number, d, n), number)
    decreases n
  {
    NothingPlain(number);
    if n > 0 {
      ChecksPlain(number, d, n - 1);
      OnePlain(number, "ContractOutputNotFound", CheckOf(n - 1));
      hide PublicCode, Plain, OutputNames;
      PlainJoins(UndeclaredChecks(number, d, n - 1),
                 [Finding(number, Error, "ContractOutputNotFound", CheckOf(n - 1), [], false)],
                 number);
      assert UndeclaredChecks(number, d, n - 1) + [] == UndeclaredChecks(number, d, n - 1);
    }
  }

  lemma {:induction false} AdmissionPlain(number: nat, d: Declaration, apiOnly: bool, names: set<string>,
                                          ids: set<string>)
    ensures Plain(Admission(number, d, apiOnly, names, ids).findings, number)
  {
    ComplaintsPlain(number, d.verdict.metadata, |d.verdict.metadata|);
    ComplaintsPlain(number, d.verdict.schema, |d.verdict.schema|);
    ChecksPlain(number, d, |d.checks|);
    NothingPlain(number);
    OnePlain(number, "NamespaceRequired", At("/metadata/namespace"));
    OnePlain(number, "AdmissionInvalid", At("/metadata"));
    OnePlain(number, "IdentityConflict", At("/metadata"));
    OnePlain(number, "InvalidUI", At("/spec/ui"));
    OnePlain(number, "InvalidPublicMetadata", At("/spec"));
    hide Plain, PublicCode, DnsLabel, DnsSubdomain, Taken, Complaints, UndeclaredChecks;
  }
}
