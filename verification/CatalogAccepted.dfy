/** Every catalog projected from admitted products is accepted by the independent reader. */
module CatalogAccepted {
  import opened Products
  import opened Catalog
  import opened Dataspace
  import Order

  /** Addresses the publisher admits, and the identities it makes up, are addresses the reader admits. */
  ghost predicate Compatible(p: Publisher, r: Reader)
  {
    && (forall s :: p.iri(s) ==> r.id(s)) && (forall s :: p.https(s) ==> r.url(s))
    && forall product, output ::
         r.id(EntityID(p, "distribution", product, output)) && r.id(EntityID(p, "service", product, output))
  }

  predicate AdmittedPort(p: Publisher, port: Port)
  {
    port.name != "" && p.https(port.url) && p.https(port.contract)
  }

  /** What the publisher checks of every product before projecting it. */
  predicate AdmittedSpec(p: Publisher, spec: Spec)
  {
    && spec.name != "" && spec.description != "" && spec.version != "" && spec.owner != "" && spec.outputs != []
    && (spec.ownerURL != "" ==> p.https(spec.ownerURL)) && (spec.documentation != "" ==> p.https(spec.documentation))
    && forall i :: 0 <= i < |spec.outputs| ==> AdmittedPort(p, spec.outputs[i])
  }

  function OutputCount(specs: seq<Spec>): nat
  {
    if specs == [] then 0 else |specs[0].outputs| + OutputCount(specs[1..])
  }

  const NoSpec := Spec("", "", "", "", "", "", "", [])

  lemma {:induction false} NextCount(specs: seq<Spec>)
    requires specs != []
    ensures OutputCount(specs) == |specs[0].outputs| + OutputCount(specs[1..])
  {
  }

  ghost predicate Admitted(p: Publisher, specs: seq<Spec>)
  {
    |specs| <= MAX_DATASETS && OutputCount(specs) <= MAX_DISTRIBUTIONS && forall s :: s in specs ==> AdmittedSpec(p, s)
  }

  /** Identities of different kinds differ, whatever the digest. */
  lemma {:induction false} KindsDiffer(p: Publisher, a: string, b: string, c: string, d: string)
    ensures EntityID(p, "distribution", a, b) != EntityID(p, "service", c, d)
  {
    var x, y := EntityID(p, "distribution", a, b), EntityID(p, "service", c, d);
    assert x[|IDENTITY_PREFIX|] == 'd' && y[|IDENTITY_PREFIX|] == 's';
  }

  /** The map holds these services under their identities. */
  ghost predicate Holds(services: map<string, Service>, ss: seq<Service>)
  {
    forall i :: 0 <= i < |ss| ==> ss[i].id in services && services[ss[i].id] == ss[i]
  }

  lemma {:induction false} HoldsTail(services: map<string, Service>, ss: seq<Service>)
    requires Holds(services, ss) && ss != []
    ensures Holds(services, ss[1..]) && ss[0].id in services && services[ss[0].id] == ss[0]
  {
  }

  lemma {:induction false} HoldsParts(services: map<string, Service>, a: seq<Service>, b: seq<Service>)
    requires Holds(services, a + b)
    ensures Holds(services, a) && Holds(services, b)
  {
    assert forall i :: 0 <= i < |a| ==> (a + b)[i] == a[i];
    assert forall i :: 0 <= i < |b| ==> (a + b)[|a| + i] == b[i];
  }

  lemma {:induction false} ServiceIdsJoin(a: seq<Service>, b: seq<Service>)
    ensures ServiceIds(a + b) == ServiceIds(a) + ServiceIds(b)
  {
    assert forall i :: 0 <= i < |a| ==> (a + b)[i] == a[i];
    assert forall i :: 0 <= i < |b| ==> (a + b)[|a| + i] == b[i];
    forall x | x in ServiceIds(a) + ServiceIds(b)
      ensures x in ServiceIds(a + b)
    {
      if x in ServiceIds(a) {
        var i :| 0 <= i < |a| && a[i].id == x;
        assert (a + b)[i].id == x;
      } else {
        var i :| 0 <= i < |b| && b[i].id == x;
        assert (a + b)[|a| + i].id == x;
      }
    }
  }

  lemma {:induction false} NoNames()
    ensures ServiceIds([]) == {} && Named([]) == {} && DistributionIds([]) == {} && DatasetIds([]) == {}
  {
  }

  lemma {:induction false} NothingProjected(p: Publisher, spec: Spec, taken: set<string>)
    ensures ProjectPorts(p, spec, [], taken) == Some(([], [], taken)) &&
            ProjectSpecs(p, [], taken) == Some(([], [], taken))
    ensures ServiceIds([]) == {} && DistributionIds([]) == {} && NodeIds([]) == {}
  {
    NoNames();
  }

  lemma {:induction false} NothingRead(r: Reader, services: map<string, Service>, id: string, ids: set<string>,
                                       used: set<string>, outputs: nat)
    ensures ReadServices(r, [], ids) == Some(ids)
    ensures ReadDistributions(r, services, id, [], ids, used) == Some((ids, used))
    ensures ReadDatasets(r, services, [], ids, used, outputs) == Some((ids, used))
  {
  }

  // ---------------------------------------------------------------- one product

  /** The parts of a projected product: the first port's nodes, and the others'. */
  lemma {:induction false} FirstPort(p: Publisher, spec: Spec, ports: seq<Port>, taken: set<string>)
    requires ports != [] && ProjectPorts(p, spec, ports, taken).Some?
    ensures var d, s := DistributionOf(p, spec, ports[0]), ServiceOf(p, spec, ports[0]);
            var rest := ProjectPorts(p, spec, ports[1..], taken + {d.id, s.id});
            && d.id !in taken && s.id !in taken && rest.Some?
            && ProjectPorts(p, spec, ports, taken).value ==
               ([d] + rest.value.0, [s] + rest.value.1, rest.value.2)
            && d.service == s.id && d.id != s.id
  {
    KindsDiffer(p, spec.id, ports[0].name, spec.id, ports[0].name);
  }

  lemma {:induction false} ServiceAdds(s: Service, ss: seq<Service>)
    ensures ServiceIds([s] + ss) == {s.id} + ServiceIds(ss)
  {
    assert ([s] + ss)[0] == s && ([s] + ss)[1..] == ss;
    ServiceIdsSplit([s] + ss);
  }

  lemma {:induction false} DistributionAdds(d: Distribution, ds: seq<Distribution>)
    ensures DistributionIds([d] + ds) == {d.id} + DistributionIds(ds)
  {
    assert ([d] + ds)[0] == d && ([d] + ds)[1..] == ds;
    NamedSplit([d] + ds);
  }

  lemma {:induction false} ReadServiceFirst(r: Reader, s: Service, ss: seq<Service>, ids: set<string>)
    requires r.id(s.id) && s.id !in ids && ServiceFits(r, s)
    ensures ReadServices(r, [s] + ss, ids) == ReadServices(r, ss, ids + {s.id})
  {
    assert ([s] + ss)[0] == s && ([s] + ss)[1..] == ss;
    hide ServiceFits;
  }

  lemma {:induction false} ReadDistributionFirst(r: Reader, services: map<string, Service>, id: string, d: Distribution,
                                                 ds: seq<Distribution>, ids: set<string>, used: set<string>)
    requires r.id(d.id) && d.id !in ids && DistributionFits(r, services, id, d) && d.service !in used
    ensures ReadDistributions(r, services, id, [d] + ds, ids, used) ==
            ReadDistributions(r, services, id, ds, ids + {d.id}, used + {d.service})
  {
    assert ([d] + ds)[0] == d && ([d] + ds)[1..] == ds;
    hide DistributionFits;
  }

  /** What projecting some ports guarantees: fresh identities of two kinds, and matching nodes. */
  ghost predicate PortsFresh(taken: set<string>, ds: seq<Distribution>, ss: seq<Service>, after: set<string>)
  {
    && after == taken + DistributionIds(ds) + ServiceIds(ss)
    && DistributionIds(ds) !! taken && ServiceIds(ss) !! taken && DistributionIds(ds) !! ServiceIds(ss)
    && Named(ds) == ServiceIds(ss)
  }

  lemma {:induction false} PortsAreFresh(p: Publisher, spec: Spec, ports: seq<Port>, taken: set<string>)
    requires ProjectPorts(p, spec, ports, taken).Some?
    ensures var (ds, ss, after) := ProjectPorts(p, spec, ports, taken).value;
            PortsFresh(taken, ds, ss, after) && |ds| == |ss| == |ports|
            && forall v :: v in ss ==> v.dataset == spec.id
    decreases |ports|
  {
    NoNames();
    if ports != [] {
      var d, s := DistributionOf(p, spec, ports[0]), ServiceOf(p, spec, ports[0]);
      PortsAreFresh(p, spec, ports[1..], taken + {d.id, s.id});
      KindsDiffer(p, spec.id, ports[0].name, spec.id, ports[0].name);
      var (tail, others, last) := ProjectPorts(p, spec, ports[1..], taken + {d.id, s.id}).value;
      hide ProjectPorts;
      FreshGrows(taken, d, s, tail, others, last);
    }
  }

  lemma {:induction false} FreshGrows(taken: set<string>, d: Distribution, s: Service, ds: seq<Distribution>,
                                      ss: seq<Service>, after: set<string>)
    requires PortsFresh(taken + {d.id, s.id}, ds, ss, after) && d.id != s.id && d.id !in taken && s.id !in taken
    requires d.service == s.id
    ensures PortsFresh(taken, [d] + ds, [s] + ss, after)
  {
    var a, b := [d] + ds, [s] + ss;
    assert a[1..] == ds && b[1..] == ss;
    NamedSplit(a);
    ServiceIdsSplit(b);
    hide DistributionIds, ServiceIds, Named;
  }

  /** The reader accepts the services of these ports. */
  lemma {:induction false} PortServicesRead(p: Publisher, r: Reader, spec: Spec, ports: seq<Port>, taken: set<string>,
                                            ids: set<string>)
    requires Compatible(p, r) && ProjectPorts(p, spec, ports, taken).Some?
    requires forall i :: 0 <= i < |ports| ==> AdmittedPort(p, ports[i])
    requires ids !! ServiceIds(ProjectPorts(p, spec, ports, taken).value.1)
    ensures var ss := ProjectPorts(p, spec, ports, taken).value.1;
            ReadServices(r, ss, ids) == Some(ids + ServiceIds(ss))
    decreases |ports|
  {
    hide *;
    if ports == [] {
      NothingProjected(p, spec, taken);
      NothingRead(r, map[], spec.id, ids, {}, 0);
      assert ids + {} == ids;
    } else {
      FirstPort(p, spec, ports, taken);
      var d, s := DistributionOf(p, spec, ports[0]), ServiceOf(p, spec, ports[0]);
      var tail, now := ports[1..], taken + {d.id, s.id};
      var (others, theirs, last) := ProjectPorts(p, spec, tail, now).value;
      PortsAreFresh(p, spec, tail, now);
      FreshParts(now, others, theirs, last);
      ServiceAdds(s, theirs);
      ServiceNodeFits(p, r, spec, ports[0]);
      PortServicesRead(p, r, spec, tail, now, ids + {s.id});
      ReadServiceFirst(r, s, theirs, ids);
      assert ids + {s.id} + ServiceIds(theirs) == ids + ServiceIds([s] + theirs);
    }
  }

  lemma {:induction false} ServiceNodeFits(p: Publisher, r: Reader, spec: Spec, port: Port)
    requires Compatible(p, r) && AdmittedPort(p, port)
    ensures r.id(ServiceOf(p, spec, port).id) && ServiceFits(r, ServiceOf(p, spec, port))
    ensures r.id(DistributionOf(p, spec, port).id)
  {
  }

  lemma {:induction false} DistributionNodeFits(p: Publisher, r: Reader, spec: Spec, port: Port,
                                                services: map<string, Service>)
    requires Compatible(p, r) && AdmittedPort(p, port)
    requires ServiceOf(p, spec, port).id in services &&
             services[ServiceOf(p, spec, port).id] == ServiceOf(p, spec, port)
    ensures DistributionFits(r, services, spec.id, DistributionOf(p, spec, port))
  {
  }

  /** The reader accepts the distributions of these ports, each with its service. */
  lemma {:induction false} PortDistributionsRead(p: Publisher, r: Reader, spec: Spec, ports: seq<Port>,
                                                 taken: set<string>,
                                                 services: map<string, Service>, ids: set<string>, used: set<string>)
    requires Compatible(p, r) && ProjectPorts(p, spec, ports, taken).Some?
    requires forall i :: 0 <= i < |ports| ==> AdmittedPort(p, ports[i])
    requires var (ds, ss, _) := ProjectPorts(p, spec, ports, taken).value;
             Holds(services, ss) && ids !! DistributionIds(ds) && used !! ServiceIds(ss)
    ensures var (ds, ss, _) := ProjectPorts(p, spec, ports, taken).value;
            ReadDistributions(r, services, spec.id, ds, ids, used) ==
            Some((ids + DistributionIds(ds), used + ServiceIds(ss)))
    decreases |ports|
  {
    hide *;
    if ports == [] {
      NothingProjected(p, spec, taken);
      NothingRead(r, services, spec.id, ids, used, 0);
      assert ids + {} == ids && used + {} == used;
    } else {
      FirstPort(p, spec, ports, taken);
      var d, s := DistributionOf(p, spec, ports[0]), ServiceOf(p, spec, ports[0]);
      var tail, now := ports[1..], taken + {d.id, s.id};
      var (others, theirs, last) := ProjectPorts(p, spec, tail, now).value;
      PortsAreFresh(p, spec, tail, now);
      FreshParts(now, others, theirs, last);
      ServiceAdds(s, theirs);
      DistributionAdds(d, others);
      assert ([s] + theirs)[0] == s && ([s] + theirs)[1..] == theirs;
      HoldsTail(services, [s] + theirs);
      ServiceNodeFits(p, r, spec, ports[0]);
      DistributionNodeFits(p, r, spec, ports[0], services);
      PortDistributionsRead(p, r, spec, tail, now, services, ids + {d.id}, used + {s.id});
      ReadDistributionFirst(r, services, spec.id, d, others, ids, used);
      assert ids + {d.id} + DistributionIds(others) == ids + DistributionIds([d] + others);
      assert used + {s.id} + ServiceIds(theirs) == used + ServiceIds([s] + theirs);
    }
  }

  // ---------------------------------------------------------------- all products

  ghost predicate SpecsFresh(taken: set<string>, ds: seq<Dataset>, ss: seq<Service>, last: set<string>)
  {
    && last == taken + NodeIds(ds) + ServiceIds(ss)
    && NodeIds(ds) !! taken && ServiceIds(ss) !! taken && NodeIds(ds) !! ServiceIds(ss)
    && NamedBy(ds) == ServiceIds(ss)
  }

  lemma {:induction false} SortedPorts(p: Publisher, spec: Spec)
    requires AdmittedSpec(p, spec)
    ensures |Order.Sort(spec.outputs, PortKey)| == |spec.outputs|
    ensures forall i :: 0 <= i < |spec.outputs| ==> AdmittedPort(p, Order.Sort(spec.outputs, PortKey)[i])
  {
    var sorted := Order.Sort(spec.outputs, PortKey);
    assert |multiset(sorted)| == |sorted| && |multiset(spec.outputs)| == |spec.outputs|;
    forall i | 0 <= i < |sorted|
      ensures AdmittedPort(p, sorted[i])
    {
      Order.PermutationMember(sorted, spec.outputs, sorted[i]);
      var j :| 0 <= j < |spec.outputs| && spec.outputs[j] == sorted[i];
    }
  }

  /** The parts of a projection: the first product's nodes, and the others'. */
  lemma {:induction false} FirstSpec(p: Publisher, specs: seq<Spec>, taken: set<string>)
    requires specs != [] && ProjectSpecs(p, specs, taken).Some?
    ensures var spec := specs[0];
            var own := ProjectPorts(p, spec, Order.Sort(spec.outputs, PortKey), taken + {spec.id});
            && p.iri(spec.id) && spec.id !in taken && own.Some?
            && var rest := ProjectSpecs(p, specs[1..], own.value.2);
            rest.Some? && ProjectSpecs(p, specs, taken).value.0 == [DatasetOf(spec, own.value.0)] + rest.value.0
            && ProjectSpecs(p, specs, taken).value.1 == own.value.1 + rest.value.1
            && ProjectSpecs(p, specs, taken).value.2 == rest.value.2
  {
    hide ProjectPorts, DatasetOf, Order.Sort;
  }

  lemma {:induction false} SpecsAreFresh(p: Publisher, specs: seq<Spec>, taken: set<string>)
    requires ProjectSpecs(p, specs, taken).Some? && forall s :: s in specs ==> AdmittedSpec(p, s)
    ensures var (ds, ss, last) := ProjectSpecs(p, specs, taken).value;
            && SpecsFresh(taken, ds, ss, last) && |ds| == |specs| && |ss| == OutputCount(specs)
            && forall v :: v in ss ==> v.dataset in DatasetIds(ds)
    decreases |specs|
  {
    NoNames();
    if specs != [] {
      var spec := specs[0];
      FirstSpec(p, specs, taken);
      hide ProjectSpecs, AdmittedSpec, ProjectPorts;
      var ports := Order.Sort(spec.outputs, PortKey);
      SortedPorts(p, spec);
      PortsAreFresh(p, spec, ports, taken + {spec.id});
      var (own, mine, after) := ProjectPorts(p, spec, ports, taken + {spec.id}).value;
      var tail := specs[1..];
      assert forall s :: s in tail ==> s in specs;
      SpecsAreFresh(p, tail, after);
      var (others, theirs, last) := ProjectSpecs(p, tail, after).value;
      var d := DatasetOf(spec, own);
      SpecFreshGrows(taken, d, own, mine, after, others, theirs, last);
      DatasetIdsGrow(d, others);
      hide SpecsFresh, PortsFresh;
      forall v | v in mine + theirs
        ensures v.dataset in DatasetIds([d] + others)
      {
      }
    }
  }

  lemma {:induction false} SpecFreshGrows(taken: set<string>, d: Dataset, own: seq<Distribution>, mine: seq<Service>,
                                          after: set<string>, others: seq<Dataset>, theirs: seq<Service>,
                                          last: set<string>)
    requires d.distributions == own && d.id !in taken && PortsFresh(taken + {d.id}, own, mine, after)
    requires SpecsFresh(after, others, theirs, last)
    ensures SpecsFresh(taken, [d] + others, mine + theirs, last)
  {
    var ds := [d] + others;
    assert ds[0] == d && ds[1..] == others;
    ServiceIdsJoin(mine, theirs);
    assert NodeIds(ds) == {d.id} + DistributionIds(own) + NodeIds(others);
    assert NamedBy(ds) == Named(own) + NamedBy(others);
    hide ServiceIds, DistributionIds, Named, NodeIds, NamedBy;
  }

  lemma {:induction false} DatasetIdsGrow(d: Dataset, ds: seq<Dataset>)
    ensures DatasetIds([d] + ds) == {d.id} + DatasetIds(ds)
  {
    var all := [d] + ds;
    assert forall i {:trigger ds[i]} :: 0 <= i < |ds| ==> all[i + 1] == ds[i];
    assert all[0] == d;
    forall x | x in {d.id} + DatasetIds(ds)
      ensures x in DatasetIds(all)
    {
      if x in DatasetIds(ds) {
        var i :| 0 <= i < |ds| && ds[i].id == x;
        assert all[i + 1].id == x;
      }
    }
    forall x | x in DatasetIds(all)
      ensures x in {d.id} + DatasetIds(ds)
    {
      var i :| 0 <= i < |all| && all[i].id == x;
      if i > 0 {
        assert ds[i - 1].id == x;
      }
    }
  }

  lemma {:induction false} ReadServicesJoins(r: Reader, a: seq<Service>, b: seq<Service>, ids: set<string>)
    ensures ReadServices(r, a + b, ids) ==
            (match ReadServices(r, a, ids) case None => None case Some(more) => ReadServices(r, b, more))
    decreases |a|
  {
    hide ServiceFits;
    if a == [] {
      assert a + b == b;
    } else {
      assert (a + b)[0] == a[0] && (a + b)[1..] == a[1..] + b;
      ReadServicesJoins(r, a[1..], b, ids + {a[0].id});
    }
  }

  lemma {:induction false} SpecServicesRead(p: Publisher, r: Reader, specs: seq<Spec>, taken: set<string>,
                                            ids: set<string>)
    requires Compatible(p, r) && ProjectSpecs(p, specs, taken).Some? && forall s :: s in specs ==> AdmittedSpec(p, s)
    requires ids !! ServiceIds(ProjectSpecs(p, specs, taken).value.1)
    ensures var ss := ProjectSpecs(p, specs, taken).value.1;
            ReadServices(r, ss, ids) == Some(ids + ServiceIds(ss))
    decreases |specs|
  {
    hide *;
    if specs == [] {
      NothingProjected(p, NoSpec, taken);
      NothingRead(r, map[], "", ids, {}, 0);
      assert ids + {} == ids;
    } else {
      var spec := specs[0];
      FirstSpec(p, specs, taken);
      var ports := Order.Sort(spec.outputs, PortKey);
      SortedPorts(p, spec);
      PortsAreFresh(p, spec, ports, taken + {spec.id});
      var (own, mine, after) := ProjectPorts(p, spec, ports, taken + {spec.id}).value;
      var tail := specs[1..];
      assert forall s :: s in tail ==> s in specs;
      SpecsAreFresh(p, tail, after);
      var theirs := ProjectSpecs(p, tail, after).value.1;
      ServiceIdsJoin(mine, theirs);
      FreshParts(taken + {spec.id}, own, mine, after);
      SpecParts(after, ProjectSpecs(p, tail, after).value.0, theirs, ProjectSpecs(p, tail, after).value.2);
      PortServicesRead(p, r, spec, ports, taken + {spec.id}, ids);
      SpecServicesRead(p, r, tail, after, ids + ServiceIds(mine));
      ReadServicesJoins(r, mine, theirs, ids);
      assert ids + ServiceIds(mine) + ServiceIds(theirs) == ids + ServiceIds(mine + theirs);
    }
  }

  lemma {:induction false} FreshParts(taken: set<string>, ds: seq<Distribution>, ss: seq<Service>, after: set<string>)
    requires PortsFresh(taken, ds, ss, after)
    ensures after == taken + DistributionIds(ds) + ServiceIds(ss)
    ensures DistributionIds(ds) !! taken && ServiceIds(ss) !! taken && DistributionIds(ds) !! ServiceIds(ss)
  {
    hide DistributionIds, ServiceIds, Named;
  }

  lemma {:induction false} SpecParts(taken: set<string>, ds: seq<Dataset>, ss: seq<Service>, last: set<string>)
    requires SpecsFresh(taken, ds, ss, last)
    ensures last == taken + NodeIds(ds) + ServiceIds(ss)
    ensures NodeIds(ds) !! taken && ServiceIds(ss) !! taken && NodeIds(ds) !! ServiceIds(ss)
  {
    hide NodeIds, ServiceIds, NamedBy;
  }

  lemma {:induction false} DatasetNodeFits(p: Publisher, r: Reader, spec: Spec, ds: seq<Distribution>)
    requires Compatible(p, r) && AdmittedSpec(p, spec) && p.iri(spec.id) && |ds| == |spec.outputs|
    ensures r.id(spec.id) && DatasetFits(r, DatasetOf(spec, ds))
    ensures DatasetOf(spec, ds).id == spec.id && DatasetOf(spec, ds).distributions == ds
  {
  }

  lemma {:induction false} SpecDatasetsRead(p: Publisher, r: Reader, specs: seq<Spec>, taken: set<string>,
                                            services: map<string, Service>, ids: set<string>, used: set<string>,
                                            outputs: nat)
    requires Compatible(p, r) && ProjectSpecs(p, specs, taken).Some? && forall s :: s in specs ==> AdmittedSpec(p, s)
    requires outputs + OutputCount(specs) <= MAX_DISTRIBUTIONS
    requires var (ds, ss, _) := ProjectSpecs(p, specs, taken).value;
             Holds(services, ss) && ids !! NodeIds(ds) && used !! ServiceIds(ss)
    ensures var (ds, ss, _) := ProjectSpecs(p, specs, taken).value;
            ReadDatasets(r, services, ds, ids, used, outputs) == Some((ids + NodeIds(ds), used + ServiceIds(ss)))
    decreases |specs|
  {
    hide *;
    if specs == [] {
      NothingProjected(p, NoSpec, taken);
      NothingRead(r, services, "", ids, used, outputs);
      assert ids + {} == ids && used + {} == used;
    } else {
      var spec := specs[0];
      FirstSpec(p, specs, taken);
      NextCount(specs);
      var ports := Order.Sort(spec.outputs, PortKey);
      SortedPorts(p, spec);
      PortsAreFresh(p, spec, ports, taken + {spec.id});
      var (own, mine, after) := ProjectPorts(p, spec, ports, taken + {spec.id}).value;
      var tail := specs[1..];
      assert forall s :: s in tail ==> s in specs;
      SpecsAreFresh(p, tail, after);
      var (others, theirs, last) := ProjectSpecs(p, tail, after).value;
      var d := DatasetOf(spec, own);
      DatasetNodeFits(p, r, spec, own);
      HoldsParts(services, mine, theirs);
      ServiceIdsJoin(mine, theirs);
      NodeIdsGrow(d, others);
      FreshParts(taken + {spec.id}, own, mine, after);
      SpecParts(after, others, theirs, last);
      PortDistributionsRead(p, r, spec, ports, taken + {spec.id}, services, ids + {spec.id}, used);
      SpecDatasetsRead(p, r, tail, after, services, ids + {spec.id} + DistributionIds(own), used + ServiceIds(mine),
                       outputs + |own|);
      ReadFirst(r, services, d, others, ids, used, outputs);
      assert ids + {d.id} + DistributionIds(own) + NodeIds(others) == ids + NodeIds([d] + others);
      assert used + ServiceIds(mine) + ServiceIds(theirs) == used + ServiceIds(mine + theirs);
    }
  }

  lemma {:induction false} NodeIdsGrow(d: Dataset, ds: seq<Dataset>)
    ensures NodeIds([d] + ds) == {d.id} + DistributionIds(d.distributions) + NodeIds(ds)
  {
    assert ([d] + ds)[0] == d && ([d] + ds)[1..] == ds;
    hide DistributionIds;
  }

  lemma {:induction false} ReadFirst(r: Reader, services: map<string, Service>, d: Dataset, ds: seq<Dataset>,
                                     ids: set<string>, used: set<string>, outputs: nat)
    requires r.id(d.id) && d.id !in ids && DatasetFits(r, d) && outputs + |d.distributions| <= MAX_DISTRIBUTIONS
    requires ReadDistributions(r, services, d.id, d.distributions, ids + {d.id}, used).Some?
    ensures var (more, linked) := ReadDistributions(r, services, d.id, d.distributions, ids + {d.id}, used).value;
            ReadDatasets(r, services, [d] + ds, ids, used, outputs) ==
            ReadDatasets(r, services, ds, more, linked, outputs + |d.distributions|)
  {
    assert ([d] + ds)[0] == d && ([d] + ds)[1..] == ds;
    hide ReadDistributions, DatasetFits;
  }

  lemma {:induction false} HeldByIdentity(r: Reader, ss: seq<Service>, ids: set<string>)
    requires ReadServices(r, ss, ids).Some?
    ensures Holds(ByIdentity(ss), ss)
  {
    PairwiseRead(r, ss, ids);
    hide ReadServices;
    HeldDistinct(ss);
  }

  lemma {:induction false} PairwiseRead(r: Reader, ss: seq<Service>, ids: set<string>)
    requires ReadServices(r, ss, ids).Some?
    ensures forall i, j :: 0 <= i < j < |ss| ==> ss[i].id != ss[j].id
    decreases |ss|
  {
    hide ServiceFits;
    if ss != [] {
      var tail := ss[1..];
      PairwiseRead(r, tail, ids + {ss[0].id});
      ReadServicesFresh(r, tail, ids + {ss[0].id}, ss[0].id);
      forall i, j | 0 <= i < j < |ss|
        ensures ss[i].id != ss[j].id
      {
        assert ss[j] == tail[j - 1];
        if i > 0 {
          assert ss[i] == tail[i - 1];
        } else {
          assert tail[j - 1].id in ServiceIds(tail);
        }
      }
    }
  }

  lemma {:induction false} HeldDistinct(ss: seq<Service>)
    requires forall i, j :: 0 <= i < j < |ss| ==> ss[i].id != ss[j].id
    ensures Holds(ByIdentity(ss), ss)
    decreases |ss|
  {
    if ss != [] {
      var front := ss[..|ss| - 1];
      HeldDistinct(front);
      assert forall i {:trigger front[i]} :: 0 <= i < |front| ==> front[i] == ss[i];
      forall i | 0 <= i < |ss|
        ensures ss[i].id in ByIdentity(ss) && ByIdentity(ss)[ss[i].id] == ss[i]
      {
        if i < |front| {
          assert front[i] == ss[i];
        }
      }
    }
  }

  // ---------------------------------------------------------------- the round trip

  /**
   Publisher and reader agree: whatever is projected from admitted products, in any order they are listed, is
   accepted by the reader.
   */
  lemma {:induction false} ProjectionIsAccepted(p: Publisher, r: Reader, id: string, specs: seq<Spec>)
    requires Compatible(p, r) && p.iri(id) && Admitted(p, specs) && Projected(p, id, specs).Some?
    ensures Accepted(r, Projected(p, id, specs).value)
    ensures |Projected(p, id, specs).value.datasets| == |specs|
  {
    var c := Projected(p, id, specs).value;
    var ds, ss := c.datasets, c.services;
    assert ProjectSpecs(p, specs, {id}).Some? && ProjectSpecs(p, specs, {id}).value.0 == ds
           && ProjectSpecs(p, specs, {id}).value.1 == ss by {
      hide ProjectSpecs;
    }
    assert OutputCount(specs) <= MAX_DISTRIBUTIONS && |specs| <= MAX_DATASETS &&
           forall s :: s in specs ==> AdmittedSpec(p, s);
    assert r.id(id);
    assert c.context == Context && c.kind == "dcat:Catalog" && c.id == id;
    hide *;
    var last := ProjectSpecs(p, specs, {id}).value.2;
    SpecsAreFresh(p, specs, {id});
    SpecParts({id}, ds, ss, last);
    SpecServicesRead(p, r, specs, {id}, {id});
    HeldByIdentity(r, ss, {id});
    SpecDatasetsRead(p, r, specs, {id}, ByIdentity(ss), {id} + ServiceIds(ss), {}, 0);
    AcceptedIs(r, c, {id} + ServiceIds(ss), {id} + ServiceIds(ss) + NodeIds(ds), {} + ServiceIds(ss));
  }

  lemma {:induction false} AcceptedIs(r: Reader, c: Document, claimed: set<string>, ids: set<string>, used: set<string>)
    requires c.context == Context && c.kind == "dcat:Catalog" && r.id(c.id)
    requires |c.datasets| <= MAX_DATASETS && |c.services| <= MAX_DISTRIBUTIONS
    requires ReadServices(r, c.services, {c.id}) == Some(claimed)
    requires ReadDatasets(r, ByIdentity(c.services), c.datasets, claimed, {}, 0) == Some((ids, used))
    requires used == {} + ServiceIds(c.services)
    requires forall v :: v in c.services ==> v.dataset in DatasetIds(c.datasets)
    ensures Accepted(r, c)
  {
    hide ReadServices, ReadDatasets, ByIdentity;
    forall v | v in c.services
      ensures v.id in used
    {
      var i :| 0 <= i < |c.services| && c.services[i] == v;
      assert c.services[i].id in ServiceIds(c.services);
    }
  }

  /** The ports of a product become its distributions, in the order of their names. */
  lemma {:induction false} PortsDescribed(p: Publisher, spec: Spec, ports: seq<Port>, taken: set<string>, j: nat)
    requires ProjectPorts(p, spec, ports, taken).Some? && j < |ports|
    ensures var (ds, ss, _) := ProjectPorts(p, spec, ports, taken).value;
            |ds| == |ss| == |ports| && ds[j] == DistributionOf(p, spec, ports[j]) &&
            ss[j] == ServiceOf(p, spec, ports[j])
    decreases |ports|
  {
    PortsAreFresh(p, spec, ports, taken);
    FirstPort(p, spec, ports, taken);
    hide ProjectPorts, PortsFresh;
    var d, s := DistributionOf(p, spec, ports[0]), ServiceOf(p, spec, ports[0]);
    if j > 0 {
      PortsDescribed(p, spec, ports[1..], taken + {d.id, s.id}, j - 1);
    }
  }

  /** Every product has exactly one dataset, which describes it and its outputs sorted by name. */
  ghost predicate Describes(p: Publisher, spec: Spec, d: Dataset)
  {
    var ports := Order.Sort(spec.outputs, PortKey);
    && d == DatasetOf(spec, d.distributions) && |d.distributions| == |ports|
    && forall j :: 0 <= j < |ports| ==> d.distributions[j] == DistributionOf(p, spec, ports[j])
  }

  lemma {:induction false} ProductsDescribed(p: Publisher, specs: seq<Spec>, taken: set<string>, i: nat)
    requires ProjectSpecs(p, specs, taken).Some? && i < |specs|
    ensures var ds := ProjectSpecs(p, specs, taken).value.0;
            |ds| == |specs| && Describes(p, specs[i], ds[i])
    decreases |specs|
  {
    hide *;
    FirstSpec(p, specs, taken);
    var spec := specs[0];
    var ports := Order.Sort(spec.outputs, PortKey);
    var own := ProjectPorts(p, spec, ports, taken + {spec.id}).value;
    OwnDescribed(p, spec, taken + {spec.id});
    if |specs| > 1 {
      ProductsDescribed(p, specs[1..], own.2, if i > 0 then i - 1 else 0);
    } else {
      assert specs[1..] == [];
      NothingProjected(p, spec, own.2);
    }
  }

  lemma {:induction false} OwnDescribed(p: Publisher, spec: Spec, taken: set<string>)
    requires ProjectPorts(p, spec, Order.Sort(spec.outputs, PortKey), taken).Some?
    ensures var own := ProjectPorts(p, spec, Order.Sort(spec.outputs, PortKey), taken).value;
            Describes(p, spec, DatasetOf(spec, own.0))
  {
    var ports := Order.Sort(spec.outputs, PortKey);
    var own := ProjectPorts(p, spec, ports, taken).value;
    PortsAreFresh(p, spec, ports, taken);
    hide ProjectPorts, DistributionOf, Order.Sort;
    forall j | 0 <= j < |ports|
      ensures own.0[j] == DistributionOf(p, spec, ports[j])
    {
      PortsDescribed(p, spec, ports, taken, j);
    }
  }

  // ---------------------------------------------------------------- from products to an indexed catalog

  lemma {:induction false} InsertedCount(x: Spec, specs: seq<Spec>)
    ensures OutputCount(Order.Insert(x, specs, SpecKey)) == |x.outputs| + OutputCount(specs)
    decreases |specs|
  {
    hide Order.KeyLeq;
    if specs != [] {
      InsertedCount(x, specs[1..]);
      var rest := Order.Insert(x, specs[1..], SpecKey);
      assert ([x] + specs)[1..] == specs && ([specs[0]] + rest)[1..] == rest;
    }
  }

  lemma {:induction false} SortedCount(specs: seq<Spec>)
    ensures OutputCount(Order.Sort(specs, SpecKey)) == OutputCount(specs)
    decreases |specs|
  {
    if specs != [] {
      SortedCount(specs[1..]);
      InsertedCount(specs[0], Order.Sort(specs[1..], SpecKey));
    }
  }

  /** Sorting keeps what was admitted. */
  lemma {:induction false} SortedAdmitted(p: Publisher, products: seq<Spec>)
    requires Admitted(p, products)
    ensures var specs := Order.Sort(products, SpecKey);
            Admitted(p, specs) && |specs| == |products|
  {
    hide AdmittedSpec;
    var sorted := Order.Sort(products, SpecKey);
    SortedCount(products);
    assert |multiset(sorted)| == |sorted| && |multiset(products)| == |products|;
    hide OutputCount, Order.Sort;
    forall s | s in sorted
      ensures AdmittedSpec(p, s)
    {
      Order.PermutationMember(sorted, products, s);
    }
  }

  /** The catalog has exactly one dataset for every product, which describes it. */
  ghost predicate DescribesAll(p: Publisher, products: seq<Spec>, c: Document)
  {
    && |c.datasets| == |products|
    && forall spec :: spec in products ==> exists d :: d in c.datasets && Describes(p, spec, d)
  }

  lemma {:induction false} CatalogDescribes(p: Publisher, id: string, products: seq<Spec>)
    requires Projected(p, id, Order.Sort(products, SpecKey)).Some?
    ensures DescribesAll(p, products, Projected(p, id, Order.Sort(products, SpecKey)).value)
  {
    var specs := Order.Sort(products, SpecKey);
    var c := Projected(p, id, specs).value;
    assert |multiset(specs)| == |specs| && |multiset(products)| == |products|;
    hide Order.Sort, Describes, ProjectSpecs;
    if specs != [] {
      ProductsDescribed(p, specs, {id}, 0);
    } else {
      NothingProjected(p, NoSpec, {id});
    }
    forall spec | spec in products
      ensures exists d :: d in c.datasets && Describes(p, spec, d)
    {
      Order.PermutationMember(specs, products, spec);
      var i :| 0 <= i < |specs| && specs[i] == spec;
      ProductsDescribed(p, specs, {id}, i);
      assert c.datasets[i] in c.datasets;
    }
  }

  /**
   End to end: the catalog published for admitted products, whatever order they come in, is accepted by the reader
   and describes each of them in a dataset of its own.
   */
  lemma {:induction false} PublishedCatalogIsIndexed(p: Publisher, r: Reader, id: string, products: seq<Spec>)
    requires Compatible(p, r) && p.iri(id) && Admitted(p, products)
    requires Projected(p, id, Order.Sort(products, SpecKey)).Some?
    ensures var c := Projected(p, id, Order.Sort(products, SpecKey)).value;
            Accepted(r, c) && DescribesAll(p, products, c)
  {
    hide *;
    SortedAdmitted(p, products);
    ProjectionIsAccepted(p, r, id, Order.Sort(products, SpecKey));
    CatalogDescribes(p, id, products);
  }
}
