/** The catalog projected from published products, and the independent reader that indexes it. */
module Catalog {
  import opened Products
  import Order

  const MAX_DATASETS := 256
  const MAX_DISTRIBUTIONS := 1024
  const IDENTITY_PREFIX := "https://devantler.tech/.well-known/data-product/"

  const Context: map<string, string> := map[
    "dcat" := "http://www.w3.org/ns/dcat#",
    "dcterms" := "http://purl.org/dc/terms/",
    "foaf" := "http://xmlns.com/foaf/0.1/"]

  // ---------------------------------------------------------------- publication

  datatype Port = Port(name: string, url: string, contract: string, media: string)

  datatype Spec = Spec(id: string, name: string, description: string, version: string, owner: string, ownerURL: string,
                       documentation: string, outputs: seq<Port>)

  datatype Distribution = Distribution(id: string, kind: string, title: string, url: string, service: string,
                                       format: string)

  datatype Service = Service(id: string, kinds: seq<string>, title: string, endpoint: string, contract: string,
                             dataset: string)

  datatype Dataset = Dataset(id: string, kinds: seq<string>, identifier: string, title: string, description: string,
                             version: string, agent: string, publisher: string, page: Option<string>,
                             landing: Option<string>, distributions: seq<Distribution>)

  datatype Document = Document(context: map<string, string>, id: string, kind: string, datasets: seq<Dataset>,
                               services: seq<Service>)

  /** Address predicates of the publisher, and the digest that names an output; none of them is modelled further. */
  datatype Publisher = Publisher(iri: string -> bool, https: string -> bool, digest: (string, string, string) -> string)

  function EntityID(p: Publisher, kind: string, product: string, output: string): string
  {
    IDENTITY_PREFIX + kind + "/" + p.digest(kind, product, output)
  }

  function OptionalReference(value: string): Option<string>
  {
    if value == "" then None else Some(value)
  }

  function DistributionOf(p: Publisher, spec: Spec, port: Port): Distribution
  {
    Distribution(EntityID(p, "distribution", spec.id, port.name), "dcat:Distribution", port.name, port.url,
                 EntityID(p, "service", spec.id, port.name), port.media)
  }

  function ServiceOf(p: Publisher, spec: Spec, port: Port): Service
  {
    Service(EntityID(p, "service", spec.id, port.name), ["dcat:DataService", "dcat:Resource"], port.name, port.url,
            port.contract, spec.id)
  }

  function DatasetOf(spec: Spec, distributions: seq<Distribution>): Dataset
  {
    Dataset(spec.id, ["dcat:Dataset", "dcat:Resource"], spec.id, spec.name, spec.description, spec.version,
            "foaf:Agent",
            spec.owner, OptionalReference(spec.ownerURL), OptionalReference(spec.documentation), distributions)
  }

  function PortKey(port: Port): seq<string>
  {
    [port.name]
  }

  function SpecKey(spec: Spec): seq<string>
  {
    [spec.id]
  }

  /** The nodes of the remaining ports, unless an identity is taken; the identities taken afterwards. */
  function ProjectPorts(p: Publisher, spec: Spec, ports: seq<Port>, taken: set<string>)
    : Option<(seq<Distribution>, seq<Service>, set<string>)>
  {
    if ports == [] then Some(([], [], taken))
    else
      var d, s := DistributionOf(p, spec, ports[0]), ServiceOf(p, spec, ports[0]);
      if d.id in taken || s.id in taken then None
      else
        match ProjectPorts(p, spec, ports[1..], taken + {d.id, s.id})
        case None => None
        case Some((ds, ss, after)) => Some(([d] + ds, [s] + ss, after))
  }

  /** The nodes of the remaining products, unless an identity is invalid or taken. */
  function ProjectSpecs(p: Publisher, specs: seq<Spec>,
                        taken: set<string>): Option<(seq<Dataset>, seq<Service>, set<string>)>
  {
    if specs == [] then Some(([], [], taken))
    else
      var spec := specs[0];
      if !p.iri(spec.id) || spec.id in taken then None
      else
        match ProjectPorts(p, spec, Order.Sort(spec.outputs, PortKey), taken + {spec.id})
        case None => None
        case Some((ds, ss, after)) =>
          match ProjectSpecs(p, specs[1..], after)
          case None => None
          case Some((more, others, last)) => Some(([DatasetOf(spec, ds)] + more, ss + others, last))
  }

  function Projected(p: Publisher, id: string, specs: seq<Spec>): Option<Document>
  {
    match ProjectSpecs(p, specs, {id})
    case None => None
    case Some((datasets, services, _)) => Some(Document(Context, id, "dcat:Catalog", datasets, services))
  }

  /** The catalog of the products in the order of their identities; any ambiguity refuses it as a whole. */
  method Project(p: Publisher, id: string, products: seq<Spec>) returns (document: Option<Document>)
    ensures document == Projected(p, id, Order.Sort(products, SpecKey))
  {
    hide *;
    var specs := Order.Sort(products, SpecKey);
    var identities := {id};
    var datasets: seq<Dataset>, services: seq<Service> := [], [];
    StartSpecs(p, specs, identities);
    for next := 0 to |specs|
      invariant ProjectSpecs(p, specs, {id}) == Prepend(datasets, services, ProjectSpecs(p, specs[next..], identities))
    {
      var spec := specs[next];
      StepSpecs(p, specs, next, identities);
      NothingToPrepend(datasets, services);
      if !p.iri(spec.id) || spec.id in identities {
        StopSpecs(p, id, specs);
        return None;
      }
      var ports := Order.Sort(spec.outputs, PortKey);
      var ok, ds, ss, after := ProjectOutputs(p, spec, ports, identities + {spec.id});
      if !ok {
        StopSpecs(p, id, specs);
        return None;
      }
      PrependTwice(datasets, services, DatasetOf(spec, ds), ss, ProjectSpecs(p, specs[next + 1..], after));
      datasets := datasets + [DatasetOf(spec, ds)];
      services := services + ss;
      identities := after;
    }
    EndSpecs(p, id, specs, datasets, services, identities);
    return Some(Document(Context, id, "dcat:Catalog", datasets, services));
  }

  lemma {:induction false} StartSpecs(p: Publisher, specs: seq<Spec>, taken: set<string>)
    ensures ProjectSpecs(p, specs, taken) == Prepend([], [], ProjectSpecs(p, specs[0..], taken))
  {
    assert specs[0..] == specs;
    var rest := ProjectSpecs(p, specs, taken);
    hide ProjectSpecs;
    if rest.Some? {
      assert [] + rest.value.0 == rest.value.0 && [] + rest.value.1 == rest.value.1;
    }
  }

  lemma {:induction false} StepSpecs(p: Publisher, specs: seq<Spec>, next: nat, taken: set<string>)
    requires next < |specs|
    ensures var spec := specs[next];
            ProjectSpecs(p, specs[next..], taken) ==
            if !p.iri(spec.id) || spec.id in taken then None
            else match ProjectPorts(p, spec, Order.Sort(spec.outputs, PortKey), taken + {spec.id})
                 case None => None
                 case Some((ds, ss, after)) => Prepend([DatasetOf(spec, ds)], ss,
                                                       ProjectSpecs(p, specs[next + 1..], after))
  {
    assert specs[next..][0] == specs[next] && specs[next..][1..] == specs[next + 1..];
    hide ProjectPorts, DatasetOf, Order.Sort;
  }

  lemma {:induction false} NothingToPrepend(ds: seq<Dataset>, ss: seq<Service>)
    ensures Prepend(ds, ss, None) == None
  {
  }

  lemma {:induction false} StopSpecs(p: Publisher, id: string, specs: seq<Spec>)
    requires ProjectSpecs(p, specs, {id}) == None
    ensures Projected(p, id, specs) == None
  {
  }

  lemma {:induction false} EndSpecs(p: Publisher, id: string, specs: seq<Spec>, ds: seq<Dataset>, ss: seq<Service>,
                                    taken: set<string>)
    requires ProjectSpecs(p, specs, {id}) == Prepend(ds, ss, ProjectSpecs(p, specs[|specs|..], taken))
    ensures Projected(p, id, specs) == Some(Document(Context, id, "dcat:Catalog", ds, ss))
  {
    assert specs[|specs|..] == [] && ds + [] == ds && ss + [] == ss;
    assert ProjectSpecs(p, [], taken) == Some(([], [], taken));
    hide ProjectSpecs;
  }

  /** The inner loop over the sorted ports of one product. */
  method ProjectOutputs(p: Publisher, spec: Spec, ports: seq<Port>, taken: set<string>)
    returns (ok: bool, distributions: seq<Distribution>, services: seq<Service>, identities: set<string>)
    ensures ok <==> ProjectPorts(p, spec, ports, taken).Some?
    ensures ok ==> ProjectPorts(p, spec, ports, taken) == Some((distributions, services, identities))
  {
    hide DistributionOf, ServiceOf;
    distributions, services, identities := [], [], taken;
    assert ports[0..] == ports;
    ghost var all := ProjectPorts(p, spec, ports, taken);
    assert all.Some? ==> [] + all.value.0 == all.value.0 && [] + all.value.1 == all.value.1;
    for next := 0 to |ports|
      invariant ProjectPorts(p, spec, ports, taken) ==
                PrependPorts(distributions, services, ProjectPorts(p, spec, ports[next..], identities))
    {
      assert ports[next..][0] == ports[next] && ports[next..][1..] == ports[next + 1..];
      var d, s := DistributionOf(p, spec, ports[next]), ServiceOf(p, spec, ports[next]);
      if d.id in identities || s.id in identities {
        ok := false;
        return;
      }
      identities := identities + {d.id, s.id};
      PrependPort(distributions, services, d, s, ProjectPorts(p, spec, ports[next + 1..], identities));
      distributions := distributions + [d];
      services := services + [s];
    }
    assert distributions + [] == distributions && services + [] == services;
    ok := true;
  }

  function Prepend(ds: seq<Dataset>, ss: seq<Service>, rest: Option<(seq<Dataset>, seq<Service>, set<string>)>)
    : Option<(seq<Dataset>, seq<Service>, set<string>)>
  {
    match rest
    case None => None
    case Some((more, others, last)) => Some((ds + more, ss + others, last))
  }

  function PrependPorts(ds: seq<Distribution>, ss: seq<Service>,
                        rest: Option<(seq<Distribution>, seq<Service>, set<string>)>)
    : Option<(seq<Distribution>, seq<Service>, set<string>)>
  {
    match rest
    case None => None
    case Some((more, others, last)) => Some((ds + more, ss + others, last))
  }

  lemma {:induction false} PrependTwice(ds: seq<Dataset>, ss: seq<Service>, d: Dataset, own: seq<Service>,
                                        rest: Option<(seq<Dataset>, seq<Service>, set<string>)>)
    ensures Prepend(ds, ss, Prepend([d], own, rest)) == Prepend(ds + [d], ss + own, rest)
  {
    if rest.Some? {
      var (more, others, last) := rest.value;
      assert ds + ([d] + more) == ds + [d] + more && ss + (own + others) == ss + own + others;
    }
  }

  lemma {:induction false} PrependPort(ds: seq<Distribution>, ss: seq<Service>, d: Distribution, s: Service,
                                       rest: Option<(seq<Distribution>, seq<Service>, set<string>)>)
    ensures PrependPorts(ds, ss, PrependPorts([d], [s], rest)) == PrependPorts(ds + [d], ss + [s], rest)
  {
    if rest.Some? {
      var (more, others, last) := rest.value;
      assert ds + ([d] + more) == ds + [d] + more && ss + ([s] + others) == ss + [s] + others;
    }
  }
}
