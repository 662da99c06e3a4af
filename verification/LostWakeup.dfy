/** A run without composition in which a failed listing loses a wakeup. */
module LostWakeup {
  import opened Products
  import opened Composition
  import opened Reconcile
  import opened WorkQueue
  import Declarations
  import Versions

  const ConsumerKey := Key("ns", "consumer")
  const ProducerKey := Key("ns", "producer")
  const Nothing := Declares(false, false, false, false)
  const Ports := [Output("out", "OpenAPI")]

  /** A consumer and its producer, as created. */
  const Consumer := Product(ConsumerKey, "v1.0.0", [Input("in", Reference("", "producer", "out"), None)], Ports,
                            Nothing, 1, false,
                            NoStatus)

  const Producer := Product(ProducerKey, "v1.0.0", [], Ports, Nothing, 1, false, NoStatus)

  function Verdicts(ready: bool, reason: Reason): Status
  {
    Status(Some(Condition(ready, reason, 1)), None, None, None, None, [], 1)
  }

  const Refused := Consumer.(status := Verdicts(false, DependencyNotReady))
  const Provided := Producer.(status := Verdicts(true, DependenciesReady))

  const Created: Store := map[ConsumerKey := Consumer, ProducerKey := Producer]
  const Checked: Store := map[ConsumerKey := Refused, ProducerKey := Producer]
  const Stale: Store := map[ConsumerKey := Refused, ProducerKey := Provided]

  function Direct(): Settings
  {
    Settings(false, _ => 0)
  }

  const NoLocal := LocalState(Unobserved, Unobserved, Unobserved)

  lemma {:induction false} PairAdmitted()
    ensures WithinApi(Consumer) && WithinApi(Producer)
  {
    FirstVersion();
    hide Versions.Stable;
    var a, b := "consumer", "producer";
    assert forall i :: 0 <= i < |a| ==> Declarations.SubdomainAt(a, i);
    assert forall i :: 0 <= i < |b| ==> Declarations.SubdomainAt(b, i);
  }

  lemma {:induction false} ConsumerRuns()
    ensures Run(Quieted(Created), Direct(), NoLocal, Consumer) == Outcome(Refused.status, false, false, false)
    ensures Run(Quieted(Checked), Direct(), NoLocal, Refused) == Outcome(Refused.status, false, false, false)
    ensures Run(Quieted(Stale), Direct(), NoLocal, Refused).status != Refused.status
  {
    PairTarget();
    assert FirstDirectIssue(Quieted(Created), Consumer, 0) == DependencyNotReady;
    assert FirstDirectIssue(Quieted(Checked), Refused, 0) == DependencyNotReady;
    assert FirstDirectIssue(Quieted(Stale), Refused, 0) == FirstDirectIssue(Quieted(Stale), Refused, 1) == NoReason;
  }

  lemma {:induction false} ProducerRuns()
    ensures Run(Quieted(Checked), Direct(), NoLocal, Producer) == Outcome(Provided.status, false, false, false)
    ensures Run(Quieted(Stale), Direct(), NoLocal, Provided) == Outcome(Provided.status, false, false, false)
  {
    assert FirstDirectIssue(Quieted(Checked), Producer, 0) == FirstDirectIssue(Quieted(Stale), Provided, 0) == NoReason;
  }

  lemma {:induction false} PairTarget()
    ensures ConsumerKey != ProducerKey && Target(ConsumerKey, Consumer.inputs[0]) == ProducerKey
  {
  }

  lemma {:induction false} PairRequests(s: Store)
    requires s == Checked || s == Stale
    ensures Requests(s, false, ProducerKey) == {ConsumerKey} && Requests(s, false, ConsumerKey) == {}
  {
    PairTarget();
    assert Consumer.inputs[0] in Consumer.inputs;
    assert Targets(s[ConsumerKey]) == {ProducerKey} && Targets(s[ProducerKey]) == {};
    assert s.Keys == {ConsumerKey, ProducerKey};
    forall consumer, k
      ensures consumer in Requests(s, false, k) <==> consumer in s && k in Targets(s[consumer])
    {
      hide Targets;
    }
    hide Requests, Targets;
  }

  /** One product's run that finds its status as recorded. */
  lemma {:induction false} CommitsNothing(sys: System, c: Settings, k: Key, l: LocalState)
    requires k in sys.running && sys.running[k] == Progress([sys.store], [l]) && k in sys.store
    requires Run(Quieted(sys.store), c, l, sys.store[k]) == Outcome(sys.store[k].status, false, false, false)
    ensures Commit(sys, sys.(running := sys.running - {k}), c, k, Quieted(sys.store), l, true)
  {
    hide Run;
    AloneIsMixed(sys.store);
    hide Mixed;
  }

  lemma {:induction false} AloneIsMixed(s: Store)
    ensures Mixed(s, [s])
  {
    var stores := [s];
    assert stores[0] == s;
    forall k
      ensures Held(s, stores, k)
    {
      assert Same(s, stores[0], k);
    }
  }

  /** One product's run that finds a new status and writes it. */
  lemma {:induction false} CommitsStatus(sys: System, c: Settings, k: Key, l: LocalState, status: Status, listed: bool)
    requires k in sys.running && sys.running[k] == Progress([sys.store], [l]) && k in sys.store
    requires Run(Quieted(sys.store), c, l, sys.store[k]) == Outcome(status, false, false, false) &&
             status != sys.store[k].status
    ensures Commit(sys, Notify(sys.(running := sys.running - {k}), c, k,
                               sys.store[k := sys.store[k].(status := status)], listed),
                   c, k, Quieted(sys.store), l, listed)
  {
    AloneIsMixed(sys.store);
    hide Run, Mixed, Requests;
  }

  const Nobody: map<Key, Progress> := map[]

  /** The controller while nothing is running, and while a run for k has just begun. */
  function Resting(s: Store, queue: set<Key>, missed: set<Key>): System
  {
    System(s, map[], queue, Nobody, {}, {}, missed)
  }

  function Running(s: Store, queue: set<Key>, missed: set<Key>, k: Key): System
  {
    System(s, map[], queue, Nobody[k := Progress([s], [NoLocal])], {}, {}, missed)
  }

  lemma {:induction false} RunBegins(s: Store, queue: set<Key>, missed: set<Key>, k: Key)
    requires k !in queue && k !in missed
    ensures Begin(Resting(s, queue + {k}, missed), Running(s, queue, missed, k), k)
  {
    assert queue + {k} - {k} == queue && missed - {k} == missed;
  }

  lemma {:induction false} RunEnds(s: Store, queue: set<Key>, missed: set<Key>, k: Key)
    requires k in s && Run(Quieted(s), Direct(), NoLocal, s[k]) == Outcome(s[k].status, false, false, false)
    ensures Commit(Running(s, queue, missed, k), Resting(s, queue, missed), Direct(), k, Quieted(s), NoLocal, true)
  {
    CommitsNothing(Running(s, queue, missed, k), Direct(), k, NoLocal);
    assert Running(s, queue, missed, k).running - {k} == Nobody;
    hide Commit, Run, Quieted, Direct;
  }

  lemma {:induction false} RunWrites(s: Store, queue: set<Key>, k: Key, status: Status, t: Store, listed: bool)
    requires k in s && t == s[k := s[k].(status := status)] && status != s[k].status
    requires Run(Quieted(s), Direct(), NoLocal, s[k]) == Outcome(status, false, false, false)
    ensures var consumers := Requests(t, false, k);
            Commit(Running(s, queue, {}, k),
                   Resting(t, queue + {k} + (if listed then consumers else {}), if listed then {} else {} + consumers),
                   Direct(), k, Quieted(s), NoLocal, listed)
  {
    CommitsStatus(Running(s, queue, {}, k), Direct(), k, NoLocal, status, listed);
    assert Running(s, queue, {}, k).running - {k} == Nobody && Remember(Nobody, t) == Nobody;
    assert !Direct().composition;
    hide Commit, Run, Requests, Quieted, Direct;
  }

  /** The nine states of the run. */
  function Stage(i: nat): System
  {
    match i
    case 0 => Resting(Created, {ProducerKey} + {ConsumerKey}, {})
    case 1 => Running(Created, {ProducerKey}, {}, ConsumerKey)
    case 2 => Resting(Checked, {ProducerKey} + {ConsumerKey}, {})
    case 3 => Running(Checked, {ProducerKey}, {}, ConsumerKey)
    case 4 => Resting(Checked, {} + {ProducerKey}, {})
    case 5 => Running(Checked, {}, {}, ProducerKey)
    case 6 => Resting(Stale, {} + {ProducerKey}, {ConsumerKey})
    case 7 => Running(Stale, {}, {ConsumerKey}, ProducerKey)
    case _ => Resting(Stale, {}, {ConsumerKey})
  }

  /** ... and its eight steps; listing fails when the producer becomes ready. */
  function StageStep(i: nat): Step
  {
    match i
    case 0 => BeginStep(ConsumerKey)
    case 1 => CommitStep(ConsumerKey, Quieted(Created), NoLocal, true)
    case 2 => BeginStep(ConsumerKey)
    case 3 => CommitStep(ConsumerKey, Quieted(Checked), NoLocal, true)
    case 4 => BeginStep(ProducerKey)
    case 5 => CommitStep(ProducerKey, Quieted(Checked), NoLocal, false)
    case 6 => BeginStep(ProducerKey)
    case _ => CommitStep(ProducerKey, Quieted(Stale), NoLocal, true)
  }

  lemma {:induction false} ConsumerStages(i: nat)
    requires i < 4
    ensures Next(Stage(i), Stage(i + 1), Direct(), StageStep(i))
  {
    PairTarget();
    RunBegins(Created, {ProducerKey}, {}, ConsumerKey);
    RunBegins(Checked, {ProducerKey}, {}, ConsumerKey);
    PairLookup();
    ConsumerRuns();
    hide Run, Commit, Begin, Requests, Quieted, Direct, Resting, Running;
    if i == 1 {
      PairRequests(Checked);
      RunWrites(Created, {ProducerKey}, ConsumerKey, Refused.status, Checked, true);
      assert {ProducerKey} + {ConsumerKey} + {} == {ProducerKey} + {ConsumerKey};
    } else if i == 3 {
      RunEnds(Checked, {ProducerKey}, {}, ConsumerKey);
      assert {} + {ProducerKey} == {ProducerKey};
    }
  }

  lemma {:induction false} ProducerStages(i: nat)
    requires 4 <= i < 8
    ensures Next(Stage(i), Stage(i + 1), Direct(), StageStep(i))
  {
    PairTarget();
    RunBegins(Checked, {}, {}, ProducerKey);
    RunBegins(Stale, {}, {ConsumerKey}, ProducerKey);
    PairLookup();
    ProducerRuns();
    hide Run, Commit, Begin, Requests, Quieted, Direct, Resting, Running;
    if i == 5 {
      PairRequests(Stale);
      RunWrites(Checked, {}, ProducerKey, Provided.status, Stale, false);
      assert {} + {ProducerKey} + {} == {} + {ProducerKey} && {} + {ConsumerKey} == {ConsumerKey};
    } else if i == 7 {
      RunEnds(Stale, {}, {ConsumerKey}, ProducerKey);
    }
  }

  lemma {:induction false} PairLookup()
    ensures Created[ConsumerKey] == Consumer && Checked[ConsumerKey] == Refused && Stale[ConsumerKey] == Refused
    ensures Checked[ProducerKey] == Producer && Stale[ProducerKey] == Provided
    ensures Created[ConsumerKey := Consumer.(status := Refused.status)] == Checked
    ensures Checked[ProducerKey := Producer.(status := Provided.status)] == Stale
    ensures Refused.status != Consumer.status && Provided.status != Producer.status
  {
    PairTarget();
  }

  lemma {:induction false} PairStarts()
    ensures Init(Stage(0)) && forall x :: x in Stage(0).store ==>
              WithinApi(Stage(0).store[x]) && Stage(0).store[x].status == NoStatus
  {
    PairAdmitted();
    assert Created.Keys == {ConsumerKey, ProducerKey} == {ProducerKey} + {ConsumerKey};
    hide WithinApi;
  }

  lemma {:induction false} PairEnds()
    ensures var last := Stage(8);
            && last.queue == {} && last.running == map[] && last.timers == {} && last.drifted == {}
            && ConsumerKey in last.missed && ConsumerKey in last.store
            && last.store[ConsumerKey].status !=
               Run(Quieted(last.store), Direct(), LocalOf(last.local, ConsumerKey), last.store[ConsumerKey]).status
  {
    PairLookup();
    ConsumerRuns();
    hide Run, Quieted, Direct;
  }

  /**
   Without composition the pending retry can be missing: a consumer and its producer are created, the consumer is
   found to wait, the producer becomes ready, listing its consumers fails, and the controller comes to rest with
   nothing pending although the consumer's status is no longer what a run computes.
   */
  lemma {:induction false} FailedListingLosesWakeup()
    returns (states: seq<System>, steps: seq<Step>, c: Settings, k: Key)
    ensures Behaviour(states, steps, c) && !c.composition
    ensures forall x :: x in states[0].store ==> WithinApi(states[0].store[x]) && states[0].store[x].status == NoStatus
    ensures forall step :: step in steps ==> step.BeginStep? || step.CommitStep?
    ensures var last := states[|states| - 1];
            && last.queue == {} && last.running == map[] && last.timers == {} && last.drifted == {}
            && k in last.missed && k in last.store
            && last.store[k].status != Run(Quieted(last.store), c, LocalOf(last.local, k), last.store[k]).status
  {
    c, k := Direct(), ConsumerKey;
    assert !c.composition;
    hide *;
    states, steps := seq(9, i requires 0 <= i < 9 => Stage(i)), seq(8, i requires 0 <= i < 8 => StageStep(i));
    PairStarts();
    PairEnds();
    forall i {:trigger steps[i]} | 0 <= i < |steps|
      ensures Next(states[i], states[i + 1], c, steps[i])
      ensures steps[i].BeginStep? || steps[i].CommitStep?
    {
      StageSteps(i);
      StageFollows(i);
    }
    BehaviourIs(states, steps, c);
  }

  lemma {:induction false} StageFollows(i: nat)
    requires i < 8
    ensures Next(Stage(i), Stage(i + 1), Direct(), StageStep(i))
  {
    hide *;
    if i < 4 {
      ConsumerStages(i);
    } else {
      ProducerStages(i);
    }
  }

  lemma {:induction false} StageSteps(i: nat)
    ensures StageStep(i).BeginStep? || StageStep(i).CommitStep?
  {
    hide Quieted;
  }

  lemma {:induction false} BehaviourIs(states: seq<System>, steps: seq<Step>, c: Settings)
    requires |states| == |steps| + 1 && Init(states[0])
    requires forall i {:trigger steps[i]} :: 0 <= i < |steps| ==> Next(states[i], states[i + 1], c, steps[i])
    ensures Behaviour(states, steps, c)
  {
    hide Next, Init;
  }
}
