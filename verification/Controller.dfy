/** The reconciler's methods: they update a product's status in place, capability by capability. */
module Controller {
  import opened Products
  import opened Compatibility
  import opened Digraph
  import opened Composition
  import opened Reconcile
  import opened WorkQueue
  import CompositionGraph
  import CompositionTheorems
  import Order

  lemma {:induction false} BytesGrow(c: Settings, inputs: seq<InputStatus>, i: nat)
    requires i <= |inputs|
    ensures Bytes(c, inputs[..i]) <= Bytes(c, inputs)
    decreases |inputs|
  {
    if i < |inputs| {
      var front := inputs[..|inputs| - 1];
      BytesGrow(c, front, i);
      assert front[..i] == inputs[..i];
    } else {
      assert inputs[..i] == inputs;
    }
  }

  class Reconciler {
    const reader: Reader
    const settings: Settings
    const local: LocalState
    var status: Status

    constructor (reader: Reader, settings: Settings, local: LocalState, previous: Status)
      ensures this.reader == reader && this.settings == settings && this.local == local && status == previous
    {
      this.reader, this.settings, this.local, status := reader, settings, local, previous;
    }

    method SetReadiness(p: Product, ready: bool, reason: Reason)
      modifies this
      ensures status.ready.Some? && status.ready.value.status == ready && status.ready.value.reason == reason
      ensures status.generation == status.ready.value.generation == p.generation
      ensures status.composition == old(status.composition) && status.inputs == old(status.inputs)
      ensures status.source == old(status.source) && status.connector == old(status.connector)
      ensures status.contracts == old(status.contracts)
    {
      status := status.(generation := p.generation, ready := Some(Condition(ready, reason, p.generation)));
    }

    method ObserveConnector(p: Product)
      modifies this
      ensures status == old(status).(connector := ConnectorCondition(p, local))
    {
      if !p.declares.connector {
        status := status.(connector := None);
        return;
      }
      status := status.(connector := Some(Condition(local.connector.ready, Local(local.connector.reason),
                                                    p.generation)));
    }

    method ObserveContracts(p: Product)
      modifies this
      ensures status == old(status).(contracts := ContractsCondition(p, local))
    {
      if !p.declares.contracts {
        status := status.(contracts := None);
        return;
      }
      status := status.(contracts := Some(Condition(local.contracts.ready, Local(local.contracts.reason),
                                                    p.generation)));
    }

    method ObserveSource(p: Product) returns (observation: Observation)
      modifies this
      ensures status == old(status).(source := SourceCondition(p, local))
      ensures observation.ready <==> (p.declares.source ==> local.source.ready)
      ensures p.declares.source ==> observation == local.source
    {
      if !p.declares.source {
        status := status.(source := None);
        return Observation(true, "");
      }
      if !p.declares.engine {
        status := status.(source := None);
      }
      observation := local.source;
      if p.declares.engine {
        status := status.(source := Some(Condition(observation.ready, Local(observation.reason), p.generation)));
      }
    }

    /** Record the inputs of a finished walk while they fit; the first that does not discards them all. */
    method RecordInputs(p: Product, graph: Walked) returns (inputs: seq<InputStatus>, fits: bool)
      ensures fits <==> Bytes(settings, RecordedInputs(graph, p)) <= MAX_LINEAGE_BYTES
      ensures inputs == if fits then Order.Sort(RecordedInputs(graph, p), InputName) else []
    {
      ghost var all := RecordedInputs(graph, p);
      hide RecordedInput, Order.Sort;
      inputs := [];
      var bytes := 2;
      var i := 0;
      while i < |p.inputs|
        invariant i <= |p.inputs|
        invariant inputs == all[..i]
        invariant bytes == Bytes(settings, all[..i])
        invariant bytes <= MAX_LINEAGE_BYTES
      {
        var recorded := RecordedInput(graph, p, p.inputs[i]);
        assert all[..i + 1] == all[..i] + [recorded];
        assert all[..i + 1][..i] == all[..i];
        bytes := bytes + settings.encoded(recorded) + 1;
        if bytes > MAX_LINEAGE_BYTES {
          BytesGrow(settings, all, i + 1);
          return [], false;
        }
        inputs := inputs + [recorded];
        i := i + 1;
      }
      assert all[..i] == all;
      inputs := Order.Sort(inputs, InputName);
      fits := true;
    }

    /** The reason of the first recorded input that is not ready. */
    method FirstIssue(inputs: seq<InputStatus>) returns (reason: Reason)
      ensures reason == FirstUnready(inputs)
    {
      var i := 0;
      while i < |inputs|
        invariant i <= |inputs|
        invariant FirstUnready(inputs) == FirstUnready(inputs[i..])
      {
        if !inputs[i].ready {
          return inputs[i].reason;
        }
        i := i + 1;
      }
      reason := NoReason;
    }

    /** Refresh the composition condition and the recorded inputs. */
    method ObserveComposition(p: Product) returns (failed: bool, ghost hidden: bool)
      modifies this
      ensures var composed := Compose(reader, settings, p);
              failed == composed.failed && hidden == composed.hidden &&
              status == old(status).(composition := composed.condition, inputs := composed.inputs)
    {
      hide CompositionTheorems.Check, Bytes, RecordedInputs, FirstUnready, Order.Sort;
      hidden := false;
      status := status.(inputs := []);
      if p.inputs == [] {
        status := status.(composition := None);
        return false, false;
      }
      if !settings.composition {
        var contracted := RequiresContract(p);
        status := status.(composition := if contracted
                                         then Some(Condition(false, CompositionFeatureDisabled, p.generation))
                                         else None);
        return false, false;
      }
      var graph := new CompositionGraph.Graph(reader, p);
      var reason := graph.Visit(p, 0);
      assert (graph.State(), reason) == CompositionTheorems.Check(reader, p) by {
        CheckIsVisit(reader, p);
      }
      var walked := Walked(graph.products, graph.visiting, graph.visited, graph.heights, graph.missing, graph.edges,
                           graph.notReady, graph.clock);
      if reason == NoReason && graph.notReady.Some? {
        reason := DependencyNotReady;
      }
      failed := reason == DependencyUnavailable;
      if |p.inputs| <= MAX_EDGES {
        var inputs, fits := RecordInputs(p, walked);
        status := status.(inputs := inputs);
        if !fits {
          reason, failed, hidden := CompositionLimitExceeded, false, failed;
        } else if reason == NoReason {
          reason := FirstIssue(inputs);
        }
      }
      status := status.(composition := Some(if reason == NoReason
                                            then Condition(true, CompositionVerified, p.generation)
                                            else Condition(false, reason, p.generation)));
    }

    /** The loop over direct inputs, used when no composition condition is recorded. */
    method CheckDirect(p: Product) returns (reason: Reason)
      ensures reason == FirstDirectIssue(reader, p, 0)
    {
      var i := 0;
      while i < |p.inputs|
        invariant i <= |p.inputs|
        invariant FirstDirectIssue(reader, p, 0) == FirstDirectIssue(reader, p, i)
      {
        hide FindOutput, ProducerReady;
        var key := Target(p.key, p.inputs[i]);
        if key.ns != p.key.ns {
          return CrossNamespaceDependencyDenied;
        }
        var view := DirectView(reader, i);
        if key in view.failing {
          return DependencyUnavailable;
        }
        if key !in view.store {
          return DependencyNotFound;
        }
        var dependency := view.store[key];
        if !ProducerReady(dependency) {
          return DependencyNotReady;
        }
        if FindOutput(dependency.outputs, p.inputs[i].ref.output).None? {
          return OutputNotFound;
        }
        i := i + 1;
      }
      reason := NoReason;
    }

    /** A whole run: the recorded status and the retry decisions are those of the specification. */
    method Reconcile(p: Product) returns (failed: bool, later: bool, ghost hidden: bool)
      requires status == p.status
      modifies this
      ensures Outcome(status, failed, later, hidden) == Run(reader, settings, local, p)
      ensures status.generation == p.generation
    {
      hide Compose, FirstDirectIssue;
      ObserveConnector(p);
      ObserveContracts(p);
      var source := ObserveSource(p);
      failed, hidden := ObserveComposition(p);
      var composition := status.composition;
      later := composition.Some? || p.declares.connector || p.declares.contracts || p.declares.source;
      if failed {
        SetReadiness(p, false, composition.value.reason);
        return;
      }
      if p.declares.source && !source.ready {
        SetReadiness(p, false, Local(source.reason));
        return;
      }
      if composition.Some? {
        if !composition.value.status {
          SetReadiness(p, false, composition.value.reason);
          return;
        }
      } else {
        var reason := CheckDirect(p);
        if reason != NoReason {
          failed := reason == DependencyUnavailable;
          SetReadiness(p, false, reason);
          return;
        }
      }
      if status.connector.Some? && !status.connector.value.status {
        SetReadiness(p, false, status.connector.value.reason);
        return;
      }
      if status.contracts.Some? && !status.contracts.value.status {
        SetReadiness(p, false, status.contracts.value.reason);
        return;
      }
      SetReadiness(p, true, DependenciesReady);
    }
  }

  lemma {:induction false} CheckIsVisit(r: Reader, p: Product)
    ensures CompositionTheorems.Check(r, p) == Visit(r, Start(p), p, 0)
  {
  }
}
