/** Data products, their declared ports, and the conditions the controller records on them. */
module Products {

  datatype Option<+T> = None | Some(value: T)

  /** A namespaced identity. Namespaces and names are DNS labels, so "namespace/name" is injective. */
  datatype Key = Key(ns: string, name: string)

  /** A reference to a named output of a producer; an empty namespace means the consumer's own. */
  datatype Reference = Reference(ns: string, name: string, output: string)

  datatype Contract = Contract(protocol: string, minimum: string)

  datatype Input = Input(name: string, ref: Reference, contract: Option<Contract>)

  datatype Output = Output(name: string, protocol: string)

  /** Which locally observed capabilities a product's spec asks for. */
  datatype Declares = Declares(source: bool, engine: bool, connector: bool, contracts: bool)

  /** Condition and input reasons; NoReason stands for an empty reason. */
  datatype Reason =
    | NoReason
    | CompositionFeatureDisabled
    | CompositionVerified
    | CompositionLimitExceeded
    | ContractIncompatible
    | CrossNamespaceDependencyDenied
    | DependenciesReady
    | DependencyCycle
    | DependencyNotFound
    | DependencyNotReady
    | DependencyUnavailable
    | DependencyUnobserved
    | InputReady
    | OutputNotFound
    | Local(text: string)

  datatype Condition = Condition(status: bool, reason: Reason, generation: nat)

  datatype InputStatus = InputStatus(
    name: string,
    target: Key,
    observed: Option<(string, nat, Option<Output>)>,
    ready: bool,
    reason: Reason)

  datatype Status = Status(
    ready: Option<Condition>,
    composition: Option<Condition>,
    source: Option<Condition>,
    connector: Option<Condition>,
    contracts: Option<Condition>,
    inputs: seq<InputStatus>,
    generation: nat)

  const NoStatus := Status(None, None, None, None, None, [], 0)

  datatype Product = Product(
    key: Key,
    version: string,
    inputs: seq<Input>,
    outputs: seq<Output>,
    declares: Declares,
    generation: nat,
    deleting: bool,
    status: Status)

  type Store = map<Key, Product>

  /** Every product is stored under its own identity. */
  ghost predicate WellKeyed(s: Store)
  {
    forall k {:trigger s[k]} :: k in s ==> s[k].key == k
  }

  /** The producer an input selects, relative to the namespace of the consumer. */
  function Target(consumer: Key, input: Input): Key
  {
    Key(if input.ref.ns == "" then consumer.ns else input.ref.ns, input.ref.name)
  }

  /** All producers a product's inputs select. */
  function Targets(p: Product): set<Key>
  {
    set i | 0 <= i < |p.inputs| :: Target(p.key, p.inputs[i])
  }

  /** The declared dependency graph of a store. */
  function Adjacency(s: Store): map<Key, set<Key>>
  {
    map k | k in s :: Targets(s[k])
  }

  /** The number of declared inputs of every stored product. */
  function Weights(s: Store): map<Key, nat>
  {
    map k | k in s :: |s[k].inputs|
  }

  /** The first output with the given name. */
  function FindOutput(outputs: seq<Output>, name: string): (found: Option<Output>)
    ensures found.Some? ==> found.value in outputs && found.value.name == name
    ensures found.None? ==> forall o :: o in outputs ==> o.name != name
  {
    if outputs == [] then None
    else if outputs[0].name == name then Some(outputs[0])
    else FindOutput(outputs[1..], name)
  }

  /** Current readiness: not being deleted, and observed true for the current generation. */
  predicate ProducerReady(p: Product)
  {
    !p.deleting && p.status.ready.Some? && p.status.ready.value.status &&
    p.status.ready.value.generation == p.generation
  }
}

/** Declared compatibility of an input with the product it selects. */
module Compatibility {
  import opened Products
  import opened Versions

  function InputCompatibility(input: Input, producer: Product): (reason: Reason)
    ensures reason in {NoReason, OutputNotFound, ContractIncompatible}
    ensures reason == ContractIncompatible ==> input.contract.Some?
    ensures reason == NoReason && input.contract.Some? ==>
              CompatibleVersion(producer.version, input.contract.value.minimum)
    ensures reason != OutputNotFound ==>
              exists o :: o in producer.outputs && o.name == input.ref.output
  {
    match FindOutput(producer.outputs, input.ref.output)
    case None => OutputNotFound
    case Some(output) =>
      if input.contract.None? then NoReason
      else if output.protocol != input.contract.value.protocol ||
              !CompatibleVersion(producer.version, input.contract.value.minimum) then ContractIncompatible
      else NoReason
  }

  /** The output at position i is the first one with the name. */
  predicate FirstNamed(outputs: seq<Output>, name: string, i: nat)
  {
    i < |outputs| && outputs[i].name == name && forall j :: 0 <= j < i ==> outputs[j].name != name
  }

  lemma {:induction false} FindsFirst(outputs: seq<Output>, name: string) returns (i: nat)
    requires FindOutput(outputs, name).Some?
    ensures FirstNamed(outputs, name, i) && outputs[i] == FindOutput(outputs, name).value
    decreases |outputs|
  {
    if outputs[0].name == name {
      i := 0;
    } else {
      var k := FindsFirst(outputs[1..], name);
      i := k + 1;
      forall j | 0 <= j < i
        ensures outputs[j].name != name
      {
        if j > 0 {
          assert outputs[j] == outputs[1..][j - 1];
        }
      }
    }
  }

  /** The first output of the name meets the contract, if one is declared. */
  predicate Meets(input: Input, producer: Product, i: nat)
  {
    FirstNamed(producer.outputs, input.ref.output, i) &&
    (input.contract.Some? ==>
       producer.outputs[i].protocol == input.contract.value.protocol &&
       CompatibleVersion(producer.version, input.contract.value.minimum))
  }

  /** No reason exactly when the first output of the name meets the contract; which reason, exactly when not. */
  lemma {:induction false} CompatibilityExact(input: Input, producer: Product)
    ensures InputCompatibility(input, producer) == NoReason <==> exists i: nat :: Meets(input, producer, i)
    ensures InputCompatibility(input, producer) == OutputNotFound <==>
            forall o :: o in producer.outputs ==> o.name != input.ref.output
  {
    hide CompatibleVersion;
    if FindOutput(producer.outputs, input.ref.output).Some? {
      var i := FindsFirst(producer.outputs, input.ref.output);
      forall k: nat | FirstNamed(producer.outputs, input.ref.output, k)
        ensures k == i
      {
        assert !(k < i) && !(i < k);
      }
      if InputCompatibility(input, producer) == NoReason {
        assert Meets(input, producer, i);
      }
    }
  }
}
