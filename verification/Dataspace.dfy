/** The independent reader of a projected catalog, and why it accepts every projection. */
module Dataspace {
  import opened Products
  import opened Digraph
  import opened Catalog

  /** The reader's own address predicates. */
  datatype Reader = Reader(id: string -> bool, url: string -> bool)

  predicate Types(got: seq<string>, kind: string)
  {
    |got| == 2 && kind in got && "dcat:Resource" in got
  }

  predicate ServiceFits(r: Reader, v: Service)
  {
    Types(v.kinds, "dcat:DataService") && v.title != "" && r.url(v.endpoint) && r.url(v.contract)
  }

  predicate OptionalFits(r: Reader, link: Option<string>)
  {
    link.Some? ==> r.url(link.value)
  }

  predicate DatasetFits(r: Reader, d: Dataset)
  {
    && Types(d.kinds, "dcat:Dataset") && d.identifier == d.id && d.title != "" && d.description != "" && d.version != ""
    && d.agent == "foaf:Agent" && d.publisher != "" && OptionalFits(r, d.landing) && OptionalFits(r, d.page)
    && d.distributions != []
  }

  /** A distribution and the service it names describe the same output of the dataset. */
  predicate DistributionFits(r: Reader, services: map<string, Service>, dataset: string, v: Distribution)
  {
    && v.kind == "dcat:Distribution" && v.title != "" && r.url(v.url) && v.service in services
    && services[v.service].title == v.title && services[v.service].dataset == dataset
    && services[v.service].endpoint == v.url
  }

  // ---------------------------------------------------------------- the reader

  function ReadServices(r: Reader, ss: seq<Service>, ids: set<string>): Option<set<string>>
  {
    if ss == [] then Some(ids)
    else if !r.id(ss[0].id) || ss[0].id in ids || !ServiceFits(r, ss[0]) then None
    else ReadServices(r, ss[1..], ids + {ss[0].id})
  }

  function ReadDistributions(r: Reader, services: map<string, Service>, dataset: string, ds: seq<Distribution>,
                             ids: set<string>, used: set<string>): Option<(set<string>, set<string>)>
  {
    if ds == [] then Some((ids, used))
    else
      var v := ds[0];
      if !r.id(v.id) || v.id in ids || !DistributionFits(r, services, dataset, v) || v.service in used then None
      else ReadDistributions(r, services, dataset, ds[1..], ids + {v.id}, used + {v.service})
  }

  function ReadDatasets(r: Reader, services: map<string, Service>, ds: seq<Dataset>, ids: set<string>,
                        used: set<string>,
                        outputs: nat): Option<(set<string>, set<string>)>
  {
    if ds == [] then Some((ids, used))
    else
      var d := ds[0];
      if !r.id(d.id) || d.id in ids || !DatasetFits(r, d) || outputs + |d.distributions| > MAX_DISTRIBUTIONS then None
      else
        match ReadDistributions(r, services, d.id, d.distributions, ids + {d.id}, used)
        case None => None
        case Some((more, linked)) => ReadDatasets(r, services, ds[1..], more, linked, outputs + |d.distributions|)
  }

  function ByIdentity(ss: seq<Service>): map<string, Service>
  {
    if ss == [] then map[] else ByIdentity(ss[..|ss| - 1])[ss[|ss| - 1].id := ss[|ss| - 1]]
  }

  ghost function DatasetIds(ds: seq<Dataset>): set<string>
  {
    set i | 0 <= i < |ds| :: ds[i].id
  }

  ghost function ServiceIds(ss: seq<Service>): set<string>
  {
    set i | 0 <= i < |ss| :: ss[i].id
  }

  predicate Header(r: Reader, c: Document)
  {
    c.context == Context && c.kind == "dcat:Catalog" && |c.datasets| <= MAX_DATASETS &&
    |c.services| <= MAX_DISTRIBUTIONS
    && r.id(c.id)
  }

  /** The identities claimed and the services used by the whole catalog. */
  function ReadAll(r: Reader, c: Document): Option<(set<string>, set<string>)>
  {
    match ReadServices(r, c.services, {c.id})
    case None => None
    case Some(claimed) => ReadDatasets(r, ByIdentity(c.services), c.datasets, claimed, {}, 0)
  }

  /** Everything is read, and every service belongs to a dataset of the catalog and is used. */
  ghost predicate Accepted(r: Reader, c: Document)
  {
    && Header(r, c) && ReadAll(r, c).Some?
    && forall v :: v in c.services ==> v.dataset in DatasetIds(c.datasets) && v.id in ReadAll(r, c).value.1
  }

  /** The loop over the services: claims identities and builds the map by identity. */
  method IndexServices(r: Reader, ss: seq<Service>, claimed: set<string>)
    returns (ok: bool, ids: set<string>, services: map<string, Service>)
    ensures ok <==> ReadServices(r, ss, claimed).Some?
    ensures ok ==> ReadServices(r, ss, claimed) == Some(ids) && services == ByIdentity(ss)
  {
    hide ServiceFits;
    ids, services := claimed, map[];
    assert ss[0..] == ss && ByIdentity(ss[..0]) == map[];
    for next := 0 to |ss|
      invariant ReadServices(r, ss, claimed) == ReadServices(r, ss[next..], ids)
      invariant services == ByIdentity(ss[..next])
    {
      var v := ss[next];
      assert ss[next..][0] == v && ss[next..][1..] == ss[next + 1..];
      assert ss[..next + 1][..next] == ss[..next] && ss[..next + 1][next] == v;
      if !r.id(v.id) || v.id in ids || !ServiceFits(r, v) {
        ok := false;
        return;
      }
      ids := ids + {v.id};
      services := services[v.id := v];
    }
    assert ss[..|ss|] == ss;
    ok := true;
  }

  /** The inner loop over the distributions of one dataset. */
  method IndexDistributions(r: Reader, services: map<string, Service>, dataset: string, ds: seq<Distribution>,
                            claimed: set<string>, linked: set<string>)
    returns (ok: bool, ids: set<string>, used: set<string>)
    ensures ok <==> ReadDistributions(r, services, dataset, ds, claimed, linked).Some?
    ensures ok ==> ReadDistributions(r, services, dataset, ds, claimed, linked) == Some((ids, used))
  {
    hide DistributionFits;
    ids, used := claimed, linked;
    assert ds[0..] == ds;
    for next := 0 to |ds|
      invariant ReadDistributions(r, services, dataset, ds, claimed, linked) ==
                ReadDistributions(r, services, dataset, ds[next..], ids, used)
    {
      var v := ds[next];
      assert ds[next..][0] == v && ds[next..][1..] == ds[next + 1..];
      if !r.id(v.id) || v.id in ids || !DistributionFits(r, services, dataset, v) || v.service in used {
        ok := false;
        return;
      }
      ids := ids + {v.id};
      used := used + {v.service};
    }
    ok := true;
  }

  /** Validates the complete graph before exposing any dataset for selection. */
  method IndexCatalog(r: Reader, c: Document) returns (ok: bool, datasets: map<string, Dataset>, ids: set<string>)
    ensures ok <==> Accepted(r, c)
    ensures ok ==> datasets.Keys == DatasetIds(c.datasets)
    ensures ok ==> forall k :: k in datasets ==> datasets[k] in c.datasets && datasets[k].id == k
  {
    hide ReadServices, ReadDistributions, ReadDatasets, ByIdentity, DatasetFits, Types, DatasetIds, Header,
         OptionalFits;
    datasets, ids := map[], {};
    if !Header(r, c) {
      return false, datasets, ids;
    }
    var services: map<string, Service>;
    ok, ids, services := IndexServices(r, c.services, {c.id});
    if !ok {
      return;
    }
    ghost var claimed := ids;
    var used: set<string> := {};
    var outputs: nat := 0;
    NoneRead(r, services, c.datasets);
    for next := 0 to |c.datasets|
      invariant ReadDatasets(r, services, c.datasets, claimed, {}, 0) ==
                ReadDatasets(r, services, c.datasets[next..], ids, used, outputs)
      invariant datasets.Keys == DatasetIds(c.datasets[..next])
      invariant forall k :: k in datasets ==> datasets[k] in c.datasets && datasets[k].id == k
    {
      var d := c.datasets[next];
      MoreIds(c.datasets, next);
      ReadNext(r, services, c.datasets, next, ids, used, outputs);
      if !r.id(d.id) || d.id in ids || !DatasetFits(r, d) || outputs + |d.distributions| > MAX_DISTRIBUTIONS {
        ok := false;
        return;
      }
      outputs := outputs + |d.distributions|;
      ok, ids, used := IndexDistributions(r, services, d.id, d.distributions, ids + {d.id}, used);
      if !ok {
        return;
      }
      datasets := datasets[d.id := d];
    }
    AllRead(r, services, c.datasets, ids, used, outputs);
    for next := 0 to |c.services|
      invariant forall i :: 0 <= i < next ==> c.services[i].dataset in datasets && c.services[i].id in used
    {
      var v := c.services[next];
      if v.dataset !in datasets || v.id !in used {
        assert v in c.services;
        ok := false;
        return;
      }
    }
    ok := true;
  }

  lemma {:induction false} NoneRead(r: Reader, services: map<string, Service>, ds: seq<Dataset>)
    ensures ds[0..] == ds && ds[..|ds|] == ds && DatasetIds(ds[..0]) == {}
  {
  }

  lemma {:induction false} AllRead(r: Reader, services: map<string, Service>, ds: seq<Dataset>, ids: set<string>,
                                   used: set<string>, outputs: nat)
    ensures ReadDatasets(r, services, ds[|ds|..], ids, used, outputs) == Some((ids, used))
  {
  }

  /** One round of the loop over datasets. */
  lemma {:induction false} ReadNext(r: Reader, services: map<string, Service>, ds: seq<Dataset>, n: nat,
                                    ids: set<string>,
                                    used: set<string>, outputs: nat)
    requires n < |ds|
    ensures var d := ds[n];
            ReadDatasets(r, services, ds[n..], ids, used, outputs) ==
            if !r.id(d.id) || d.id in ids || !DatasetFits(r, d) ||
               outputs + |d.distributions| > MAX_DISTRIBUTIONS then None
            else match ReadDistributions(r, services, d.id, d.distributions, ids + {d.id}, used)
                 case None => None
                 case Some((more, linked)) =>
                   ReadDatasets(r, services, ds[n + 1..], more, linked, outputs + |d.distributions|)
  {
    assert ds[n..][0] == ds[n] && ds[n..][1..] == ds[n + 1..];
    hide DatasetFits, ReadDistributions;
  }

  lemma {:induction false} MoreIds(ds: seq<Dataset>, n: nat)
    requires n < |ds|
    ensures DatasetIds(ds[..n + 1]) == DatasetIds(ds[..n]) + {ds[n].id}
  {
    var more, before := ds[..n + 1], ds[..n];
    assert forall i {:trigger more[i]} {:trigger before[i]} :: 0 <= i < n ==> more[i] == before[i];
    assert more[n] == ds[n];
    forall x | x in DatasetIds(before) + {ds[n].id}
      ensures x in DatasetIds(more)
    {
      if x in DatasetIds(before) {
        var i :| 0 <= i < n && before[i].id == x;
        assert more[i].id == x;
      } else {
        assert more[n].id == x;
      }
    }
  }

  // ---------------------------------------------------------------- what acceptance guarantees

  function DistributionCount(ds: seq<Dataset>): nat
  {
    if ds == [] then 0 else |ds[0].distributions| + DistributionCount(ds[1..])
  }

  /** Services named by distributions. */
  ghost function Named(ds: seq<Distribution>): set<string>
  {
    set i | 0 <= i < |ds| :: ds[i].service
  }

  ghost function DistributionIds(ds: seq<Distribution>): set<string>
  {
    set i | 0 <= i < |ds| :: ds[i].id
  }

  ghost function NamedBy(ds: seq<Dataset>): set<string>
  {
    if ds == [] then {} else Named(ds[0].distributions) + NamedBy(ds[1..])
  }

  ghost function NodeIds(ds: seq<Dataset>): set<string>
  {
    if ds == [] then {} else {ds[0].id} + DistributionIds(ds[0].distributions) + NodeIds(ds[1..])
  }

  lemma {:induction false} NamedSplit(ds: seq<Distribution>)
    requires ds != []
    ensures Named(ds) == {ds[0].service} + Named(ds[1..])
    ensures DistributionIds(ds) == {ds[0].id} + DistributionIds(ds[1..])
  {
    var more := ds[1..];
    assert forall i {:trigger more[i]} :: 0 <= i < |more| ==> more[i] == ds[i + 1];
    assert forall i {:trigger ds[i]} :: 1 <= i < |ds| ==> ds[i] == more[i - 1];
    forall x | x in {ds[0].service} + Named(more)
      ensures x in Named(ds)
    {
      if x in Named(more) {
        var i :| 0 <= i < |more| && more[i].service == x;
        assert ds[i + 1].service == x;
      } else {
        assert ds[0].service == x;
      }
    }
    forall x | x in {ds[0].id} + DistributionIds(more)
      ensures x in DistributionIds(ds)
    {
      if x in DistributionIds(more) {
        var i :| 0 <= i < |more| && more[i].id == x;
        assert ds[i + 1].id == x;
      } else {
        assert ds[0].id == x;
      }
    }
  }

  lemma {:induction false} ServiceIdsSplit(ss: seq<Service>)
    requires ss != []
    ensures ServiceIds(ss) == {ss[0].id} + ServiceIds(ss[1..])
  {
    var more := ss[1..];
    assert forall i {:trigger more[i]} :: 0 <= i < |more| ==> more[i] == ss[i + 1];
    assert forall i {:trigger ss[i]} :: 1 <= i < |ss| ==> ss[i] == more[i - 1];
    forall x | x in {ss[0].id} + ServiceIds(more)
      ensures x in ServiceIds(ss)
    {
      if x in ServiceIds(more) {
        var i :| 0 <= i < |more| && more[i].id == x;
        assert ss[i + 1].id == x;
      } else {
        assert ss[0].id == x;
      }
    }
  }

  /** Reading distributions claims as many new identities, and uses as many new services, as there are. */
  lemma {:induction false} ReadDistributionsCounts(r: Reader, services: map<string, Service>, dataset: string,
                                                   ds: seq<Distribution>, ids: set<string>, used: set<string>)
    requires ReadDistributions(r, services, dataset, ds, ids, used).Some?
    ensures var (more, linked) := ReadDistributions(r, services, dataset, ds, ids, used).value;
            && more == ids + DistributionIds(ds) && linked == used + Named(ds)
            && |more| == |ids| + |ds| && |linked| == |used| + |ds|
    decreases |ds|
  {
    hide DistributionFits;
    if ds == [] {
      assert Named(ds) == {} && DistributionIds(ds) == {};
    } else {
      NamedSplit(ds);
      ReadOne(r, services, dataset, ds, ids, used);
      hide *;
      var tail := ds[1..];
      ReadDistributionsCounts(r, services, dataset, tail, ids + {ds[0].id}, used + {ds[0].service});
      OneMoreCounted(ids, ds[0].id, DistributionIds(tail));
      OneMoreCounted(used, ds[0].service, Named(tail));
    }
  }

  lemma {:induction false} OneMoreCounted(taken: set<string>, x: string, rest: set<string>)
    ensures x !in taken ==> |taken + {x}| == |taken| + 1
    ensures taken + ({x} + rest) == taken + {x} + rest
  {
  }

  lemma {:induction false} ReadOne(r: Reader, services: map<string, Service>, dataset: string, ds: seq<Distribution>,
                                   ids: set<string>, used: set<string>)
    requires ds != [] && ReadDistributions(r, services, dataset, ds, ids, used).Some?
    ensures ds[0].id !in ids && ds[0].service !in used
    ensures ReadDistributions(r, services, dataset, ds, ids, used) ==
            ReadDistributions(r, services, dataset, ds[1..], ids + {ds[0].id}, used + {ds[0].service})
  {
    hide DistributionFits;
  }

  lemma {:induction false} ReadDatasetsCounts(r: Reader, services: map<string, Service>, ds: seq<Dataset>,
                                              ids: set<string>,
                                              used: set<string>, outputs: nat)
    requires ReadDatasets(r, services, ds, ids, used, outputs).Some?
    ensures var (more, linked) := ReadDatasets(r, services, ds, ids, used, outputs).value;
            && more == ids + NodeIds(ds) && linked == used + NamedBy(ds)
            && |more| == |ids| + |ds| + DistributionCount(ds) && |linked| == |used| + DistributionCount(ds)
    decreases |ds|
  {
    hide *;
    if ds == [] {
      NoDatasets(r, services, ids, used, outputs);
      assert ids + {} == ids && used + {} == used;
    } else {
      var d, tail := ds[0], ds[1..];
      ReadFirstDataset(r, services, ds, ids, used, outputs);
      ReadDistributionsCounts(r, services, d.id, d.distributions, ids + {d.id}, used);
      var (more, linked) := ReadDistributions(r, services, d.id, d.distributions, ids + {d.id}, used).value;
      ReadDatasetsCounts(r, services, tail, more, linked, outputs + |d.distributions|);
      assert |ids + {d.id}| == |ids| + 1;
      assert ids + {d.id} + DistributionIds(d.distributions) + NodeIds(tail) == ids + NodeIds(ds);
      assert used + Named(d.distributions) + NamedBy(tail) == used + NamedBy(ds);
    }
  }

  lemma {:induction false} NoDatasets(r: Reader, services: map<string, Service>, ids: set<string>, used: set<string>,
                                      outputs: nat)
    ensures ReadDatasets(r, services, [], ids, used, outputs) == Some((ids, used))
    ensures NodeIds([]) == {} && NamedBy([]) == {} && DistributionCount([]) == 0
  {
  }

  lemma {:induction false} ReadFirstDataset(r: Reader, services: map<string, Service>, ds: seq<Dataset>,
                                            ids: set<string>,
                                            used: set<string>, outputs: nat)
    requires ds != [] && ReadDatasets(r, services, ds, ids, used, outputs).Some?
    ensures var d := ds[0];
            var own := ReadDistributions(r, services, d.id, d.distributions, ids + {d.id}, used);
            && d.id !in ids && own.Some?
            && ReadDatasets(r, services, ds, ids, used, outputs) ==
               ReadDatasets(r, services, ds[1..], own.value.0, own.value.1, outputs + |d.distributions|)
    ensures NodeIds(ds) == {ds[0].id} + DistributionIds(ds[0].distributions) + NodeIds(ds[1..])
    ensures NamedBy(ds) == Named(ds[0].distributions) + NamedBy(ds[1..])
    ensures DistributionCount(ds) == |ds[0].distributions| + DistributionCount(ds[1..])
  {
    hide DatasetFits, ReadDistributions, Named, DistributionIds;
  }

  lemma {:induction false} ReadServicesCounts(r: Reader, ss: seq<Service>, ids: set<string>)
    requires ReadServices(r, ss, ids).Some?
    ensures ReadServices(r, ss, ids).value == ids + ServiceIds(ss)
    ensures |ReadServices(r, ss, ids).value| == |ids| + |ss|
    ensures |ServiceIds(ss)| == |ss|
    decreases |ss|
  {
    hide ServiceFits;
    if ss != [] {
      ServiceIdsSplit(ss);
      hide ServiceIds;
      ReadServicesCounts(r, ss[1..], ids + {ss[0].id});
      ReadServicesFresh(r, ss[1..], ids + {ss[0].id}, ss[0].id);
    } else {
      assert ServiceIds(ss) == {};
    }
  }

  lemma {:induction false} ReadServicesFresh(r: Reader, ss: seq<Service>, ids: set<string>, id: string)
    requires ReadServices(r, ss, ids).Some? && id in ids
    ensures id !in ServiceIds(ss)
    decreases |ss|
  {
    hide ServiceFits;
    if ss != [] {
      ServiceIdsSplit(ss);
      hide ServiceIds;
      ReadServicesFresh(r, ss[1..], ids + {ss[0].id}, id);
    }
  }

  /**
   An accepted catalog has distinct identities throughout, and its distributions and services are in bijection:
   as many distributions as services, and the services they name are exactly the services there are.
   */
  lemma {:induction false} AcceptedIsBijective(r: Reader, c: Document)
    requires Accepted(r, c)
    ensures NamedBy(c.datasets) == ServiceIds(c.services)
    ensures DistributionCount(c.datasets) == |c.services| == |ServiceIds(c.services)|
    ensures |{c.id} + ServiceIds(c.services) + NodeIds(c.datasets)| == 1 + 2 * |c.services| + |c.datasets|
  {
    hide *;
    var services := ByIdentity(c.services);
    AcceptedReads(r, c);
    var claimed := ReadServices(r, c.services, {c.id}).value;
    ReadServicesCounts(r, c.services, {c.id});
    ReadDatasetsCounts(r, services, c.datasets, claimed, {}, 0);
    UsedAreServices(r, services, c.datasets, claimed, {}, 0);
    KeysAreIds(c.services);
    assert NamedBy(c.datasets) <= ServiceIds(c.services);
    assert NamedBy(c.datasets) == {} + NamedBy(c.datasets);
  }

  lemma {:induction false} AcceptedReads(r: Reader, c: Document)
    requires Accepted(r, c)
    ensures ReadServices(r, c.services, {c.id}).Some?
    ensures var claimed := ReadServices(r, c.services, {c.id}).value;
            var read := ReadDatasets(r, ByIdentity(c.services), c.datasets, claimed, {}, 0);
            read.Some? && ServiceIds(c.services) <= read.value.1
  {
    hide ReadServices, ReadDatasets, ByIdentity, Header;
    forall x | x in ServiceIds(c.services)
      ensures x in ReadAll(r, c).value.1
    {
      var i :| 0 <= i < |c.services| && c.services[i].id == x;
      assert c.services[i] in c.services;
    }
  }

  lemma {:induction false} KeysAreIds(ss: seq<Service>)
    ensures ByIdentity(ss).Keys == ServiceIds(ss)
    decreases |ss|
  {
    if ss == [] {
      assert ServiceIds(ss) == {};
    } else {
      var front := ss[..|ss| - 1];
      KeysAreIds(front);
      assert forall i {:trigger front[i]} :: 0 <= i < |front| ==> front[i] == ss[i];
      forall x | x in ServiceIds(front) + {ss[|ss| - 1].id}
        ensures x in ServiceIds(ss)
      {
        if x in ServiceIds(front) {
          var i :| 0 <= i < |front| && front[i].id == x;
          assert ss[i].id == x;
        }
      }
      forall x | x in ServiceIds(ss)
        ensures x in ServiceIds(front) + {ss[|ss| - 1].id}
      {
        var i :| 0 <= i < |ss| && ss[i].id == x;
        if i < |front| {
          assert front[i].id == x;
        }
      }
    }
  }

  lemma {:induction false} UsedAreServices(r: Reader, services: map<string, Service>, ds: seq<Dataset>,
                                           ids: set<string>,
                                           used: set<string>, outputs: nat)
    requires ReadDatasets(r, services, ds, ids, used, outputs).Some?
    ensures NamedBy(ds) <= services.Keys
    decreases |ds|
  {
    hide DatasetFits;
    if ds != [] {
      var d := ds[0];
      NamedAreServices(r, services, d.id, d.distributions, ids + {d.id}, used);
      hide ReadDistributions, Named;
      var (more, linked) := ReadDistributions(r, services, d.id, d.distributions, ids + {d.id}, used).value;
      UsedAreServices(r, services, ds[1..], more, linked, outputs + |d.distributions|);
    }
  }

  lemma {:induction false} NamedAreServices(r: Reader, services: map<string, Service>, dataset: string,
                                            ds: seq<Distribution>, ids: set<string>, used: set<string>)
    requires ReadDistributions(r, services, dataset, ds, ids, used).Some?
    ensures Named(ds) <= services.Keys
    decreases |ds|
  {
    if ds != [] {
      NamedSplit(ds);
      hide Named, DistributionIds;
      NamedAreServices(r, services, dataset, ds[1..], ids + {ds[0].id}, used + {ds[0].service});
    }
  }
}
