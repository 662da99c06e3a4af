/** One reconciliation: the status a product gets from what the API answers during the run. */
module Reconcile {
  import opened Products
  import opened Compatibility
  import opened Composition
  import opened Digraph
  import CompositionTheorems
  import Declarations
  import Decimals
  import Versions
  import Order

  const MAX_LINEAGE_BYTES := 0x1_0000

  /** The result of one locally observed capability. */
  datatype Observation = Observation(ready: bool, reason: string)

  /** What the external resources behind a product's source, connector and contract checks report. */
  datatype LocalState = LocalState(source: Observation, connector: Observation, contracts: Observation)

  /** Whether composition is enabled, and the encoded size of one recorded input. */
  datatype Settings = Settings(composition: bool, encoded: InputStatus -> nat)

  /**
   The status to record, whether the run failed and is retried, whether a timed retry is requested, and
   whether a failed read was hidden by a later finding.
   */
  datatype Outcome = Outcome(status: Status, failed: bool, later: bool, hidden: bool)

  function Obs(p: Product, o: Observation): Condition
  {
    Condition(o.ready, Local(o.reason), p.generation)
  }

  function SourceCondition(p: Product, l: LocalState): Option<Condition>
  {
    if p.declares.source && p.declares.engine then Some(Obs(p, l.source)) else None
  }

  function ConnectorCondition(p: Product, l: LocalState): Option<Condition>
  {
    if p.declares.connector then Some(Obs(p, l.connector)) else None
  }

  function ContractsCondition(p: Product, l: LocalState): Option<Condition>
  {
    if p.declares.contracts then Some(Obs(p, l.contracts)) else None
  }

  /** Every declared capability is ready. */
  predicate LocallyReady(p: Product, l: LocalState)
  {
    (p.declares.source ==> l.source.ready) && (p.declares.connector ==> l.connector.ready) &&
    (p.declares.contracts ==> l.contracts.ready)
  }

  // ---------------------------------------------------------------- recorded inputs

  /** What is recorded for one input after the walk. */
  function RecordedInput(g: Walked, p: Product, input: Input): InputStatus
  {
    var key := Target(p.key, input);
    if key.ns != p.key.ns then InputStatus(input.name, key, None, false, CrossNamespaceDependencyDenied)
    else if key in g.products then
      var producer := g.products[key];
      var mismatch := InputCompatibility(input, producer);
      var reason := if mismatch == NoReason && !ProducerReady(producer) then DependencyNotReady else mismatch;
      InputStatus(input.name, key,
                  Some((producer.version, producer.generation, FindOutput(producer.outputs, input.ref.output))),
                  reason == NoReason, if reason == NoReason then InputReady else reason)
    else if key in g.missing then InputStatus(input.name, key, None, false, DependencyNotFound)
    else InputStatus(input.name, key, None, false, DependencyUnobserved)
  }

  function RecordedInputs(g: Walked, p: Product): seq<InputStatus>
  {
    seq(|p.inputs|, i requires 0 <= i < |p.inputs| => RecordedInput(g, p, p.inputs[i]))
  }

  function Bytes(c: Settings, inputs: seq<InputStatus>): nat
  {
    if inputs == [] then 2 else Bytes(c, inputs[..|inputs| - 1]) + c.encoded(inputs[|inputs| - 1]) + 1
  }

  function InputName(s: InputStatus): seq<string>
  {
    [s.name]
  }

  /** The reason of the first input that is not ready. */
  function FirstUnready(inputs: seq<InputStatus>): Reason
  {
    if inputs == [] then NoReason
    else if !inputs[0].ready then inputs[0].reason
    else FirstUnready(inputs[1..])
  }

  /** The composition condition, the recorded inputs, and whether the observation failed or hid a failure. */
  datatype Composed = Composed(condition: Option<Condition>, inputs: seq<InputStatus>, failed: bool, hidden: bool)

  function Verdict(p: Product, reason: Reason): Option<Condition>
  {
    Some(if reason == NoReason then Condition(true, CompositionVerified, p.generation)
         else Condition(false, reason, p.generation))
  }

  /** What the finished walk of an enabled composition leads to. */
  function ComposedFrom(c: Settings, p: Product, g: Walked, stop: Reason): (res: Composed)
    ensures res.condition.Some? && res.condition.value.generation == p.generation
    ensures !res.condition.value.status ==> res.condition.value.reason != NoReason
  {
    var reason := if stop == NoReason && g.notReady.Some? then DependencyNotReady else stop;
    if |p.inputs| > MAX_EDGES then
      Composed(Verdict(p, reason), [], reason == DependencyUnavailable, false)
    else
      var recorded := RecordedInputs(g, p);
      if Bytes(c, recorded) > MAX_LINEAGE_BYTES then
        Composed(Verdict(p, CompositionLimitExceeded), [], false, reason == DependencyUnavailable)
      else
        var inputs := Order.Sort(recorded, InputName);
        Composed(Verdict(p, if reason == NoReason then FirstUnready(inputs) else reason), inputs,
                 reason == DependencyUnavailable, false)
  }

  predicate RequiresContract(p: Product)
  {
    exists i :: 0 <= i < |p.inputs| && p.inputs[i].contract.Some?
  }

  function Compose(r: Reader, c: Settings, p: Product): (res: Composed)
    ensures res.failed ==> res.condition.Some? && !res.condition.value.status
    ensures res.condition.Some? && !res.condition.value.status ==> res.condition.value.reason != NoReason
  {
    if p.inputs == [] then Composed(None, [], false, false)
    else if !c.composition then
      Composed(if RequiresContract(p) then Some(Condition(false, CompositionFeatureDisabled, p.generation)) else None,
               [], false, false)
    else
      var (g, stop) := CompositionTheorems.Check(r, p);
      ComposedFrom(c, p, g, stop)
  }

  // ---------------------------------------------------------------- direct inputs

  /** Why an input of a product, read in this view, is not usable without composition, if it is not. */
  function DirectIssue(v: View, p: Product, input: Input): Reason
  {
    var key := Target(p.key, input);
    if key.ns != p.key.ns then CrossNamespaceDependencyDenied
    else if key in v.failing then DependencyUnavailable
    else if key !in v.store then DependencyNotFound
    else if !ProducerReady(v.store[key]) then DependencyNotReady
    else if FindOutput(v.store[key].outputs, input.ref.output).None? then OutputNotFound
    else NoReason
  }

  function FirstDirectIssue(r: Reader, p: Product, i: nat): Reason
    requires i <= |p.inputs|
    decreases |p.inputs| - i
  {
    if i == |p.inputs| then NoReason
    else
      var issue := DirectIssue(DirectView(r, i), p, p.inputs[i]);
      if issue != NoReason then issue else FirstDirectIssue(r, p, i + 1)
  }

  // ---------------------------------------------------------------- the whole run

  /** The aggregate reason, in the order the capabilities are consulted; NoReason means ready. */
  function Aggregate(r: Reader, p: Product, l: LocalState, composed: Composed): Reason
    requires composed.failed ==> composed.condition.Some?
  {
    if composed.failed then composed.condition.value.reason
    else if p.declares.source && !l.source.ready then Local(l.source.reason)
    else if composed.condition.Some? && !composed.condition.value.status then composed.condition.value.reason
    else
      var direct := if composed.condition.Some? then NoReason else FirstDirectIssue(r, p, 0);
      if direct != NoReason then direct
      else if p.declares.connector && !l.connector.ready then Local(l.connector.reason)
      else if p.declares.contracts && !l.contracts.ready then Local(l.contracts.reason)
      else NoReason
  }

  function Run(r: Reader, c: Settings, l: LocalState, p: Product): (out: Outcome)
  {
    var composed := Compose(r, c, p);
    var reason := Aggregate(r, p, l, composed);
    Outcome(
      Status(Some(if reason == NoReason then Condition(true, DependenciesReady, p.generation)
                  else Condition(false, reason, p.generation)),
             composed.condition, SourceCondition(p, l), ConnectorCondition(p, l), ContractsCondition(p, l),
             composed.inputs, p.generation),
      composed.failed || (composed.condition.None? && reason == DependencyUnavailable),
      composed.condition.Some? || p.declares.source || p.declares.connector || p.declares.contracts,
      composed.hidden)
  }

  /** A condition, where there is one, was observed for this generation. */
  predicate Current(condition: Option<Condition>, generation: nat)
  {
    condition.Some? ==> condition.value.generation == generation
  }

  /**
   Every run records the generation it saw, in the status and in each of its conditions. So consumers take the
   product for ready exactly when the run found nothing against it, and never once its declaration has changed.
   */
  lemma {:induction false} RunIsCurrent(r: Reader, c: Settings, l: LocalState, p: Product, later: Product)
    requires later.status == Run(r, c, l, p).status
    ensures var s := Run(r, c, l, p).status;
            && s.generation == p.generation && s.ready.Some? && Current(s.ready, p.generation)
            && Current(s.composition, p.generation) && Current(s.source, p.generation)
            && Current(s.connector, p.generation) && Current(s.contracts, p.generation)
    ensures ProducerReady(later) <==>
            && !later.deleting && later.generation == p.generation
            && Aggregate(r, p, l, Compose(r, c, p)) == NoReason
  {
    ComposeCurrent(r, c, p);
    hide Compose, Aggregate;
  }

  /** Status and conditions carry the generation of the declaration they are recorded with. */
  predicate Stamped(p: Product)
  {
    var s := p.status;
    && s.generation == p.generation && s.ready.Some? && Current(s.ready, p.generation)
    && Current(s.composition, p.generation) && Current(s.source, p.generation)
    && Current(s.connector, p.generation) && Current(s.contracts, p.generation)
  }

  lemma {:induction false} ComposeCurrent(r: Reader, c: Settings, p: Product)
    ensures Current(Compose(r, c, p).condition, p.generation)
  {
    hide CompositionTheorems.Check, Bytes, RecordedInputs, FirstUnready, Order.Sort;
  }

  // ---------------------------------------------------------------- what a run depends on

  /** The stores agree about one key: both lack it, or both hold the same product under it. */
  ghost predicate Same(a: Store, b: Store, k: Key)
  {
    (k in a <==> k in b) && (k in a ==> a[k] == b[k])
  }

  /** The products a run for k may read: everything reachable under composition, else k and its producers. */
  ghost predicate InFootprint(s: Store, composition: bool, k: Key, x: Key)
  {
    if composition then Reachable(s, k, x) else x == k || (k in s && x in Targets(s[k]))
  }

  ghost predicate AgreeOn(a: Store, b: Store, composition: bool, k: Key)
  {
    forall x {:trigger Same(a, b, x)} {:trigger InFootprint(a, composition, k, x)} ::
      InFootprint(a, composition, k, x) ==> Same(a, b, x)
  }

  /** A reader without failures over a store. */
  function Quieted(s: Store): Reader
  {
    Reader(s, {}, None, [])
  }

  ghost predicate SameBelow(a: Store, b: Store, k: Key)
  {
    forall x {:trigger Same(a, b, x)} {:trigger Reachable(a, k, x)} :: Reachable(a, k, x) ==> Same(a, b, x)
  }

  lemma {:induction false} BelowInput(a: Store, b: Store, p: Product, i: nat)
    requires SameBelow(a, b, p.key) && p.key in a && a[p.key] == p && i < |p.inputs|
    ensures var key := Target(p.key, p.inputs[i]);
            SameBelow(a, b, key) && Same(a, b, key)
  {
    var key := Target(p.key, p.inputs[i]);
    CompositionTheorems.InputIsEdge(a, p, i);
    forall x | Reachable(a, key, x)
      ensures Same(a, b, x)
    {
      ReachesItself(Adjacency(a), p.key);
      ReachExtends(Adjacency(a), p.key, p.key, key);
      ReachJoins(Adjacency(a), p.key, key, x);
      assert Reachable(a, p.key, x);
    }
    ReachesItself(Adjacency(a), key);
    assert Reachable(a, key, key);
  }

  /** A walk that saw no failure is the walk over any store that agrees on what is reachable. */
  lemma {:induction false} VisitFrame(r: Reader, b: Store, g: Walked, p: Product, depth: nat)
    requires WellKeyed(r.store) && Faithful(r.store, g) && p.key in r.store && r.store[p.key] == p
    requires SameBelow(r.store, b, p.key)
    requires Visit(r, g, p, depth).1 != DependencyUnavailable
    ensures Visit(Quieted(b), g, p, depth) == Visit(r, g, p, depth)
    ensures Faithful(r.store, Visit(r, g, p, depth).0)
    decreases Remaining(depth), 2, 0
  {
    hide SameBelow, VisitInputs;
    if p.key !in g.visiting && p.key !in g.visited && depth < MAX_DEPTH && g.edges + |p.inputs| <= MAX_EDGES {
      var open := g.(clock := g.clock + 1, edges := g.edges + |p.inputs|, visiting := g.visiting + {p.key});
      VisitInputsFrame(r, b, open, p, depth, 0);
    }
  }

  lemma {:induction false} VisitInputsFrame(r: Reader, b: Store, g: Walked, p: Product, depth: nat, i: nat)
    requires depth < MAX_DEPTH && i <= |p.inputs|
    requires WellKeyed(r.store) && Faithful(r.store, g) && p.key in r.store && r.store[p.key] == p
    requires SameBelow(r.store, b, p.key)
    requires VisitInputs(r, g, p, depth, i).1 != DependencyUnavailable
    ensures VisitInputs(Quieted(b), g, p, depth, i) == VisitInputs(r, g, p, depth, i)
    ensures Faithful(r.store, VisitInputs(r, g, p, depth, i).0)
    decreases Remaining(depth), 1, |p.inputs| - i
  {
    hide SameBelow, VisitInput, Faithful;
    if i < |p.inputs| {
      VisitInputFrame(r, b, g, p, depth, i);
      var (next, reason) := VisitInput(r, g, p, depth, p.inputs[i]);
      if reason == NoReason {
        VisitInputsFrame(r, b, next, p, depth, i + 1);
      }
    }
  }

  lemma {:induction false} VisitInputFrame(r: Reader, b: Store, g: Walked, p: Product, depth: nat, i: nat)
    requires depth < MAX_DEPTH && i < |p.inputs|
    requires WellKeyed(r.store) && Faithful(r.store, g) && p.key in r.store && r.store[p.key] == p
    requires SameBelow(r.store, b, p.key)
    requires VisitInput(r, g, p, depth, p.inputs[i]).1 != DependencyUnavailable
    ensures VisitInput(Quieted(b), g, p, depth, p.inputs[i]) == VisitInput(r, g, p, depth, p.inputs[i])
    ensures Faithful(r.store, VisitInput(r, g, p, depth, p.inputs[i]).0)
    decreases Remaining(depth), 0, 0
  {
    hide SameBelow, Faithful, Visit, Fetch, InputCompatibility, ProducerReady;
    var key := Target(p.key, p.inputs[i]);
    BelowInput(r.store, b, p, i);
    if key.ns == p.key.ns {
      FetchFaithful(r, g, key);
      FetchFrame(r, b, g, key);
      var (found, reason) := Fetch(r, g, key);
      if reason == NoReason {
        var producer := found.products[key];
        VisitFrame(r, b, found, producer, depth + 1);
        var below := Visit(r, found, producer, depth + 1).0;
        CompositionTheorems.FaithfulSame(r.store, below, VisitInput(r, g, p, depth, p.inputs[i]).0);
      }
    }
  }

  lemma {:induction false} FetchFrame(r: Reader, b: Store, g: Walked, key: Key)
    requires Same(r.store, b, key) && Fetch(r, g, key).1 != DependencyUnavailable
    ensures Fetch(Quieted(b), g, key) == Fetch(r, g, key)
  {
  }

  lemma {:induction false} DirectFrame(r: Reader, b: Store, p: Product, i: nat)
    requires i <= |p.inputs|
    requires forall j {:trigger p.inputs[j]} :: 0 <= j < |p.inputs| ==>
               Same(DirectView(r, j).store, b, Target(p.key, p.inputs[j]))
    requires FirstDirectIssue(r, p, i) != DependencyUnavailable
    ensures FirstDirectIssue(Quieted(b), p, i) == FirstDirectIssue(r, p, i)
    decreases |p.inputs| - i
  {
    hide FindOutput, ProducerReady, Target;
    if i < |p.inputs| {
      var v := DirectView(r, i);
      assert Same(v.store, b, Target(p.key, p.inputs[i]));
      assert DirectIssue(v, p, p.inputs[i]) != DependencyUnavailable;
      assert DirectIssue(View(b, {}), p, p.inputs[i]) == DirectIssue(v, p, p.inputs[i]);
      if DirectIssue(v, p, p.inputs[i]) == NoReason {
        DirectFrame(r, b, p, i + 1);
      }
    }
  }

  lemma {:induction false} FootprintBelow(a: Store, b: Store, p: Product)
    requires AgreeOn(a, b, true, p.key)
    ensures SameBelow(a, b, p.key)
  {
    forall x | Reachable(a, p.key, x)
      ensures Same(a, b, x)
    {
      assert InFootprint(a, true, p.key, x);
    }
  }

  lemma {:induction false} CheckFrame(r: Reader, b: Store, p: Product)
    requires WellKeyed(r.store) && p.key in r.store && r.store[p.key] == p && SameBelow(r.store, b, p.key)
    requires CompositionTheorems.Check(r, p).1 != DependencyUnavailable
    ensures CompositionTheorems.Check(Quieted(b), p) == CompositionTheorems.Check(r, p)
  {
    VisitFrame(r, b, Start(p), p, 0);
  }

  lemma {:induction false} ComposeFrame(r: Reader, b: Store, c: Settings, p: Product)
    requires WellKeyed(r.store) && p.key in r.store && r.store[p.key] == p
    requires AgreeOn(r.store, b, c.composition, p.key)
    requires !Compose(r, c, p).failed && !Compose(r, c, p).hidden
    ensures Compose(Quieted(b), c, p) == Compose(r, c, p)
  {
    hide CompositionTheorems.Check, RecordedInputs, Bytes, FirstUnready, Order.Sort, AgreeOn;
    if p.inputs != [] && c.composition {
      FootprintBelow(r.store, b, p);
      CheckFrame(r, b, p);
    }
  }

  /** Every view of the run agrees with a store on the footprint of k; composition reads no input on its own. */
  ghost predicate ViewsAgree(r: Reader, b: Store, composition: bool, k: Key)
  {
    AgreeOn(r.store, b, composition, k) &&
    (composition || forall v :: v in r.direct ==> AgreeOn(v.store, b, composition, k))
  }

  /** The frame of a run: it depends on its footprint alone, unless it failed or hid a failure. */
  lemma {:induction false} RunFrame(r: Reader, b: Store, c: Settings, l: LocalState, p: Product)
    requires WellKeyed(r.store) && p.key in r.store && r.store[p.key] == p
    requires ViewsAgree(r, b, c.composition, p.key)
    requires !Run(r, c, l, p).failed && !Run(r, c, l, p).hidden
    ensures Run(Quieted(b), c, l, p) == Run(r, c, l, p)
  {
    NoFailureHidden(r, c, l, p);
    ComposeFrame(r, b, c, p);
    if c.composition {
      ComposedDirect(r, b, c, p);
    } else {
      DirectAgrees(r, b, c, p);
      hide Compose, FirstDirectIssue, ViewsAgree, AgreeOn, LocallyReady;
      if FirstDirectIssue(r, p, 0) != DependencyUnavailable {
        DirectFrame(r, b, p, 0);
      }
    }
    hide Compose, FirstDirectIssue, ViewsAgree;
  }

  lemma {:induction false} NoFailureHidden(r: Reader, c: Settings, l: LocalState, p: Product)
    requires !Run(r, c, l, p).failed && !Run(r, c, l, p).hidden
    ensures !Compose(r, c, p).failed && !Compose(r, c, p).hidden
  {
    hide Compose, FirstDirectIssue;
  }

  /** With composition no input is read on its own. */
  lemma {:induction false} ComposedDirect(r: Reader, b: Store, c: Settings, p: Product)
    requires c.composition
    ensures Compose(r, c, p).condition.Some? ||
            FirstDirectIssue(r, p, 0) == FirstDirectIssue(Quieted(b), p, 0) == NoReason
  {
    hide CompositionTheorems.Check, ComposedFrom, DirectIssue;
  }

  lemma {:induction false} DirectAgrees(r: Reader, b: Store, c: Settings, p: Product)
    requires p.key in r.store && r.store[p.key] == p && !c.composition && ViewsAgree(r, b, c.composition, p.key)
    ensures forall j {:trigger p.inputs[j]} :: 0 <= j < |p.inputs| ==>
              Same(DirectView(r, j).store, b, Target(p.key, p.inputs[j]))
  {
    hide AgreeOn;
    forall j | 0 <= j < |p.inputs|
      ensures Same(DirectView(r, j).store, b, Target(p.key, p.inputs[j]))
    {
      InputAgrees(r.store, DirectView(r, j).store, b, c.composition, p, j);
    }
  }

  /** A view that agrees with b on the footprint of p agrees on each of its producers. */
  lemma {:induction false} InputAgrees(s: Store, view: Store, b: Store, composition: bool, p: Product, j: nat)
    requires j < |p.inputs| && p.key in s && s[p.key] == p
    requires AgreeOn(s, b, composition, p.key) && AgreeOn(view, b, composition, p.key)
    ensures Same(view, b, Target(p.key, p.inputs[j]))
  {
    SelfAgrees(s, b, composition, p.key);
    SelfAgrees(view, b, composition, p.key);
    assert Same(s, b, p.key) && Same(view, b, p.key);
    var key := Target(p.key, p.inputs[j]);
    CompositionTheorems.InputIsEdge(view, p, j);
    if composition {
      ReachesItself(Adjacency(view), p.key);
      ReachExtends(Adjacency(view), p.key, p.key, key);
    }
    assert InFootprint(view, composition, p.key, key);
  }

  lemma {:induction false} SelfAgrees(s: Store, b: Store, composition: bool, k: Key)
    requires AgreeOn(s, b, composition, k)
    ensures Same(s, b, k)
  {
    ReachesItself(Adjacency(s), k);
    assert InFootprint(s, composition, k, k);
  }

  // ---------------------------------------------------------------- failed reads

  /** With composition, a failed read is returned as an error exactly when the recorded lineage fits its budget. */
  lemma {:induction false} FailedReadReported(r: Reader, c: Settings, l: LocalState, p: Product)
    requires p.inputs != [] && c.composition && CompositionTheorems.Check(r, p).1 == DependencyUnavailable
    ensures Run(r, c, l, p).failed <==>
            |p.inputs| > MAX_EDGES ||
            Bytes(c, RecordedInputs(CompositionTheorems.Check(r, p).0, p)) <= MAX_LINEAGE_BYTES
    ensures Run(r, c, l, p).hidden <==> !Run(r, c, l, p).failed
  {
    hide CompositionTheorems.Check, RecordedInputs, Bytes;
  }

  function Repeated(c: char, n: nat): (s: string)
    ensures |s| == n && forall i :: 0 <= i < n ==> s[i] == c
  {
    seq(n, _ => c)
  }

  const BUSY_INPUTS := 400

  /** The i-th of 400 inputs, all on one producer, each under a name of its own of 63 characters. */
  function BusyInput(i: nat): (input: Input)
    requires i < BUSY_INPUTS
    ensures |input.name| == 63
  {
    Decimals.ThreeDigits(100 + i);
    Input(Repeated('i', 60) + Decimals.DecimalText(100 + i), Reference("", Repeated('p', 63), "out"), None)
  }

  function BusyProduct(): (p: Product)
    ensures |p.inputs| == BUSY_INPUTS
    ensures forall i {:trigger p.inputs[i]} :: 0 <= i < BUSY_INPUTS ==> p.inputs[i] == BusyInput(i)
  {
    Product(Key(Repeated('n', 63), "consumer"), "v1.0.0",
            seq(BUSY_INPUTS, i requires 0 <= i < BUSY_INPUTS => BusyInput(i)),
            [Output("out", "OpenAPI")], Declares(false, false, false, false), 1, false, NoStatus)
  }

  const Protocols := {"OpenAPI", "AsyncAPI", "GraphQL", "DCAT", "ArrowFlight"}

  /**
   A product the API admits: names and references are labels, input names are distinct, the version is a version,
   and one output of a known protocol is declared. The API admits further products.
   */
  ghost predicate WithinApi(p: Product)
  {
    && Declarations.DnsLabel(p.key.ns) && Declarations.DnsSubdomain(p.key.name) && Versions.Stable(p.version).Some?
    && |p.outputs| == 1 && Declarations.DnsLabel(p.outputs[0].name) && p.outputs[0].protocol in Protocols
    && (forall i {:trigger p.inputs[i]} :: 0 <= i < |p.inputs| ==>
          && Declarations.DnsLabel(p.inputs[i].name) && Declarations.DnsLabel(p.inputs[i].ref.output)
          && Declarations.DnsLabel(p.inputs[i].ref.name) && p.inputs[i].ref.ns == "" && p.inputs[i].contract.None?)
    && forall i, j :: 0 <= i < j < |p.inputs| ==> p.inputs[i].name != p.inputs[j].name
  }

  lemma {:induction false} FirstVersion()
    ensures Versions.Stable("v1.0.0").Some?
  {
    SplitOne('0', "");
    SplitDot("0");
    SplitOne('0', ".0");
    SplitDot("0.0");
    SplitOne('1', ".0.0");
    assert ['0'] + "" == "0" && ['.'] + "0" == ".0" && ['0'] + ".0" == "0.0" && ['.'] + "0.0" == ".0.0";
    assert "v1.0.0"[1..] == ['1'] + ".0.0";
    assert ['1'] + ".0.0" == "1.0.0" && ['1'] + "" == "1";
    var parts := Versions.Split("1.0.0", '.');
    assert |parts| == 3 && parts[0] == "1" && parts[1] == "0" && parts[2] == "0";
  }

  lemma {:induction false} SplitOne(c: char, s: string)
    requires c != '.'
    ensures Versions.Split([c] + s, '.') == [[c] + Versions.Split(s, '.')[0]] + Versions.Split(s, '.')[1..]
  {
    assert ([c] + s)[1..] == s;
  }

  lemma {:induction false} SplitDot(s: string)
    ensures Versions.Split(['.'] + s, '.') == [""] + Versions.Split(s, '.')
  {
    assert (['.'] + s)[1..] == s;
  }

  lemma {:induction false} BusyLabel(i: nat)
    requires i < BUSY_INPUTS
    ensures Declarations.DnsLabel(BusyInput(i).name)
  {
    var x, s := Decimals.DecimalText(100 + i), BusyInput(i).name;
    Decimals.DecimalIsDigits(100 + i);
    Decimals.ThreeDigits(100 + i);
    assert forall j :: 60 <= j < 63 ==> s[j] == x[j - 60] && x[j - 60] in x;
  }

  lemma {:induction false} BusyWithinApi()
    ensures WithinApi(BusyProduct())
  {
    var p := BusyProduct();
    forall i {:trigger p.inputs[i]} | 0 <= i < |p.inputs|
      ensures Declarations.DnsLabel(p.inputs[i].name) && Declarations.DnsLabel(p.inputs[i].ref.output)
      ensures Declarations.DnsLabel(p.inputs[i].ref.name) && p.inputs[i].ref.ns == "" && p.inputs[i].contract.None?
    {
      BusyLabel(i);
    }
    forall i, j | 0 <= i < j < |p.inputs|
      ensures p.inputs[i].name != p.inputs[j].name
    {
      DifferentNames(i, j);
    }
    OtherNames();
    FirstVersion();
    hide Declarations.DnsLabel, Declarations.DnsSubdomain, Versions.Stable, BusyInput;
  }

  lemma {:induction false} OtherNames()
    ensures Declarations.DnsLabel("out") && "OpenAPI" in Protocols
    ensures Declarations.DnsLabel(BusyProduct().key.ns) && Declarations.DnsSubdomain(BusyProduct().key.name)
  {
    var s := "consumer";
    forall i | 0 <= i < |s|
      ensures Declarations.SubdomainAt(s, i)
    {
    }
  }

  lemma {:induction false} DifferentNames(i: nat, j: nat)
    requires i < j < BUSY_INPUTS
    ensures BusyInput(i).name != BusyInput(j).name
  {
    var x, y := Decimals.DecimalText(100 + i), Decimals.DecimalText(100 + j);
    if Repeated('i', 60) + x == Repeated('i', 60) + y {
      assert x == (Repeated('i', 60) + x)[60..] && y == (Repeated('i', 60) + y)[60..];
      Decimals.DecimalInjective(100 + i, 100 + j);
    }
  }

  /** Every encoding of a recorded input contains its name and the key of its producer. */
  ghost predicate Verbatim(c: Settings)
  {
    forall s {:trigger c.encoded(s)} :: c.encoded(s) >= |s.name| + |s.target.ns| + |s.target.name|
  }

  lemma {:induction false} BytesAtLeast(c: Settings, inputs: seq<InputStatus>, each: nat)
    requires forall s :: s in inputs ==> c.encoded(s) >= each
    ensures Bytes(c, inputs) >= 2 + |inputs| * (each + 1)
    decreases |inputs|
  {
    if inputs != [] {
      BytesAtLeast(c, inputs[..|inputs| - 1], each);
    }
  }

  /**
   Whatever the encoding, a product the API admits can hide a failed read: 400 inputs of one unreadable producer
   exceed the budget of the lineage, and the failure is not returned.
   */
  lemma {:induction false} FailedReadCanBeHidden(c: Settings, l: LocalState) returns (r: Reader, p: Product)
    requires c.composition && Verbatim(c)
    ensures WithinApi(p) && r.store == map[p.key := p] && r.failing != {}
    ensures CompositionTheorems.Check(r, p).1 == DependencyUnavailable
    ensures !Run(r, c, l, p).failed && Run(r, c, l, p).hidden
  {
    p := BusyProduct();
    BusyWithinApi();
    var producer := Target(p.key, p.inputs[0]);
    r := Reader(map[p.key := p], {producer}, None, []);
    BusyCheck(r, p, producer);
    var g := CompositionTheorems.Check(r, p).0;
    var recorded := RecordedInputs(g, p);
    forall s | s in recorded
      ensures c.encoded(s) >= 189
    {
      var i :| 0 <= i < |recorded| && recorded[i] == s;
      assert s == RecordedInput(g, p, p.inputs[i]);
      RecordedTexts(g, p, p.inputs[i]);
    }
    BytesAtLeast(c, recorded, 189);
    FailedReadReported(r, c, l, p);
  }

  lemma {:induction false} RecordedTexts(g: Walked, p: Product, input: Input)
    ensures RecordedInput(g, p, input).name == input.name && RecordedInput(g, p, input).target == Target(p.key, input)
  {
    hide InputCompatibility, ProducerReady, Target;
  }

  /** The search stops at the first read. */
  lemma {:induction false} BusyCheck(r: Reader, p: Product, producer: Key)
    requires p == BusyProduct() && producer == Target(p.key, p.inputs[0]) &&
             r == Reader(map[p.key := p], {producer}, None, [])
    ensures CompositionTheorems.Check(r, p).1 == DependencyUnavailable
  {
    assert producer.name[0] == 'p' && producer != p.key;
    var open := Start(p).(clock := 1, edges := |p.inputs|, visiting := {p.key});
    assert VisitInput(r, open, p, 0, p.inputs[0]).1 == DependencyUnavailable;
    assert VisitInputs(r, open, p, 0, 0).1 == DependencyUnavailable;
  }
}
