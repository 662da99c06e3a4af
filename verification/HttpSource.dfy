/** Query and probe slots and the observation gauges of the HTTP source, as interleaved steps. */
module HttpSource {
  import opened Products
  import opened Digraph

  datatype Operation = Query | Probe

  datatype Result = Success | Disabled | Busy | Cancelled | ConfigurationError | UpstreamError | InvalidResponse

  /** Where one access stands; Done is behind the record. */
  datatype Phase =
    | Entered(op: Operation)
    | Holding(op: Operation)
    | Finished(op: Operation, result: Result)
    | Classified(op: Operation, result: Result)
    | Counted(op: Operation, result: Result)
    | Locked(op: Operation, result: Result)
    | Stamped(op: Operation, result: Result)
    | Done(op: Operation, result: Result)

  /** A scrape reads the two gauges one after the other. */
  datatype Scrape = Waiting | Reading | HasReady(ready: bool) | Complete(ready: bool, time: int)

  datatype Owner = Recorder(id: nat) | Scraper(id: nat)

  datatype Observation = Observation(time: int, ready: bool)

  /** The observations recorded so far are kept to say what a scrape may show. */
  datatype State = State(accesses: map<nat, Phase>, scrapes: map<nat, Scrape>, mutex: Option<Owner>, ready: bool,
                         time: int,
                         history: seq<Observation>)

  const Initial := State(map[], map[], None, false, 0, [Observation(0, false)])

  datatype Event =
    | Enter(id: nat, op: Operation, enabled: bool)
    | TakeSlot(id: nat, cancelled: bool)
    | Return(id: nat, result: Result)
    | Classify(id: nat, cancelled: bool)
    | Count(id: nat)
    | LockRecord(id: nat)
    | Stamp(id: nat, now: int)
    | SetReady(id: nat)
    | StartScrape(id: nat)
    | LockScrape(id: nat)
    | ReadReady(id: nat)
    | ReadTime(id: nat)

  function Capacity(op: Operation): nat
  {
    if op.Query? then 4 else 1
  }

  function Holders(s: State, op: Operation): set<nat>
  {
    set id | id in s.accesses && s.accesses[id] == Holding(op)
  }

  predicate Observes(r: Result)
  {
    r != Busy && r != Cancelled
  }

  function Move(s: State, id: nat, p: Phase): State
  {
    s.(accesses := s.accesses[id := p])
  }

  /** One step; an event that does not apply in the state it meets changes nothing. */
  function Next(s: State, e: Event): State
  {
    match e
    case Enter(id, op, enabled) =>
      if id in s.accesses then s else Move(s, id, if enabled then Entered(op) else Classified(op, Disabled))
    case TakeSlot(id, cancelled) =>
      if id !in s.accesses || !s.accesses[id].Entered? then s
      else
        var op := s.accesses[id].op;
        Move(s, id, if cancelled then Finished(op, Cancelled)
                    else if |Holders(s, op)| < Capacity(op) then Holding(op)
                    else Finished(op, Busy))
    case Return(id, result) =>
      if id !in s.accesses || !s.accesses[id].Holding? || result in {Disabled, Busy, Cancelled} then s
      else Move(s, id, Finished(s.accesses[id].op, result))
    case Classify(id, cancelled) =>
      if id !in s.accesses || !s.accesses[id].Finished? then s
      else
        var p := s.accesses[id];
        Move(s, id, Classified(p.op, if cancelled then Cancelled else p.result))
    case Count(id) =>
      if id !in s.accesses || !s.accesses[id].Classified? then s
      else
        var p := s.accesses[id];
        Move(s, id, if Observes(p.result) then Counted(p.op, p.result) else Done(p.op, p.result))
    case LockRecord(id) =>
      if id !in s.accesses || !s.accesses[id].Counted? || s.mutex.Some? then s
      else
        var p := s.accesses[id];
        Move(s, id, Locked(p.op, p.result)).(mutex := Some(Recorder(id)))
    case Stamp(id, now) =>
      if id !in s.accesses || !s.accesses[id].Locked? then s
      else
        var p := s.accesses[id];
        Move(s, id, Stamped(p.op, p.result)).(time := now)
    case SetReady(id) =>
      if id !in s.accesses || !s.accesses[id].Stamped? then s
      else
        var p := s.accesses[id];
        Move(s, id, Done(p.op, p.result)).(ready := p.result == Success, mutex := None,
                                           history := s.history + [Observation(s.time, p.result == Success)])
    case StartScrape(id) =>
      if id in s.scrapes then s else s.(scrapes := s.scrapes[id := Waiting])
    case LockScrape(id) =>
      if id !in s.scrapes || !s.scrapes[id].Waiting? || s.mutex.Some? then s
      else s.(scrapes := s.scrapes[id := Reading], mutex := Some(Scraper(id)))
    case ReadReady(id) =>
      if id !in s.scrapes || !s.scrapes[id].Reading? then s
      else s.(scrapes := s.scrapes[id := HasReady(s.ready)])
    case ReadTime(id) =>
      if id !in s.scrapes || !s.scrapes[id].HasReady? then s
      else s.(scrapes := s.scrapes[id := Complete(s.scrapes[id].ready, s.time)], mutex := None)
  }

  function Run(s: State, events: seq<Event>): State
    decreases |events|
  {
    if events == [] then s else Run(Next(s, events[0]), events[1..])
  }

  // ---------------------------------------------------------------- invariant

  predicate Recording(p: Phase)
  {
    p.Locked? || p.Stamped?
  }

  predicate InScrape(c: Scrape)
  {
    c.Reading? || c.HasReady?
  }

  /** Whoever is inside the observation boundary holds the mutex. */
  ghost predicate Exclusive(s: State)
  {
    && (forall id {:trigger s.accesses[id]} :: id in s.accesses && Recording(s.accesses[id]) ==>
        s.mutex == Some(Recorder(id)))
    && (forall id {:trigger s.scrapes[id]} :: id in s.scrapes && InScrape(s.scrapes[id]) ==>
        s.mutex == Some(Scraper(id)))
  }

  /** Outside a half-finished record, the gauges show the last observation. */
  ghost predicate Paired(s: State)
  {
    && s.history != []
    && ((forall id {:trigger s.accesses[id]} :: id in s.accesses ==> !s.accesses[id].Stamped?) ==>
          Observation(s.time, s.ready) == s.history[|s.history| - 1])
  }

  /** Scrapes show one recorded observation. */
  ghost predicate Shown(s: State)
  {
    forall id {:trigger s.scrapes[id]} :: id in s.scrapes ==>
      && (s.scrapes[id].HasReady? ==> s.scrapes[id].ready == s.ready)
      && (s.scrapes[id].Complete? ==> Observation(s.scrapes[id].time, s.scrapes[id].ready) in s.history)
  }

  ghost predicate Observing(s: State)
  {
    forall id {:trigger s.accesses[id]} ::
      id in s.accesses && (Recording(s.accesses[id]) || s.accesses[id].Counted?) ==>
      Observes(s.accesses[id].result)
  }

  ghost predicate Inv(s: State)
  {
    && (forall op :: |Holders(s, op)| <= Capacity(op))
    && Exclusive(s) && Paired(s) && Shown(s) && Observing(s)
  }

  lemma {:induction false} SlotsKept(s: State, e: Event, op: Operation)
    requires |Holders(s, op)| <= Capacity(op)
    ensures |Holders(Next(s, e), op)| <= Capacity(op)
  {
    var t := Next(s, e);
    if e.TakeSlot? && e.id in s.accesses && s.accesses[e.id] == Entered(op) && t.accesses[e.id] == Holding(op) {
      SubsetCount(Holders(t, op), Holders(s, op) + {e.id});
    } else {
      SubsetCount(Holders(t, op), Holders(s, op));
    }
  }

  lemma {:induction false} ExclusiveKept(s: State, e: Event)
    requires Exclusive(s)
    ensures Exclusive(Next(s, e))
  {
    hide Holders;
  }

  lemma {:induction false} PairedKept(s: State, e: Event)
    requires Exclusive(s) && Paired(s)
    ensures Paired(Next(s, e))
  {
    hide Holders;
    var t := Next(s, e);
    if forall id {:trigger t.accesses[id]} :: id in t.accesses ==> !t.accesses[id].Stamped? {
      assert e.Stamp? && e.id in t.accesses ==> !t.accesses[e.id].Stamped?;
      if !(e.SetReady? && e.id in s.accesses && s.accesses[e.id].Stamped?) {
        forall id {:trigger s.accesses[id]} | id in s.accesses
          ensures !s.accesses[id].Stamped?
        {
          assert !t.accesses[id].Stamped?;
        }
      }
    }
  }

  lemma {:induction false} ShownKept(s: State, e: Event)
    requires Exclusive(s) && Paired(s) && Shown(s)
    ensures Shown(Next(s, e))
  {
    hide Holders;
    var t := Next(s, e);
    if e.ReadTime? && e.id in s.scrapes && s.scrapes[e.id].HasReady? {
      assert s.mutex == Some(Scraper(e.id));
      assert forall id {:trigger s.accesses[id]} :: id in s.accesses ==> !Recording(s.accesses[id]);
      assert Observation(s.time, s.ready) in s.history;
    }
    if e.SetReady? && e.id in s.accesses && s.accesses[e.id].Stamped? {
      assert s.mutex == Some(Recorder(e.id));
    }
  }

  lemma {:induction false} ObservingKept(s: State, e: Event)
    requires Observing(s)
    ensures Observing(Next(s, e))
  {
    hide Holders;
  }

  lemma {:induction false} StepKeeps(s: State, e: Event)
    requires Inv(s)
    ensures Inv(Next(s, e))
  {
    hide Next, Holders, Exclusive, Paired, Shown, Observing;
    forall op
      ensures |Holders(Next(s, e), op)| <= Capacity(op)
    {
      SlotsKept(s, e, op);
    }
    ExclusiveKept(s, e);
    PairedKept(s, e);
    ShownKept(s, e);
    ObservingKept(s, e);
  }

  lemma {:induction false} RunKeeps(s: State, events: seq<Event>)
    requires Inv(s)
    ensures Inv(Run(s, events))
    decreases |events|
  {
    hide Inv, Next;
    if events != [] {
      StepKeeps(s, events[0]);
      RunKeeps(Next(s, events[0]), events[1..]);
    }
  }

  lemma {:induction false} InitialInv()
    ensures Inv(Initial)
  {
    assert forall op :: Holders(Initial, op) == {};
  }

  /**
   In every interleaving at most four queries and one probe hold slots, and every completed scrape shows the time
   and the readiness of one and the same observation.
   */
  lemma {:induction false} SlotsAndScrapes(events: seq<Event>, scrape: nat)
    ensures var s := Run(Initial, events);
            && |Holders(s, Query)| <= 4 && |Holders(s, Probe)| <= 1
            && (scrape in s.scrapes && s.scrapes[scrape].Complete? ==>
                  Observation(s.scrapes[scrape].time, s.scrapes[scrape].ready) in s.history)
  {
    InitialInv();
    RunKeeps(Initial, events);
    hide Run, Holders, Exclusive, Paired, Observing;
  }

  /** Only an access that is neither busy nor cancelled ever changes a gauge or adds an observation. */
  lemma {:induction false} OnlyObservationsChangeGauges(events: seq<Event>, e: Event)
    ensures var s := Run(Initial, events);
            var t := Next(s, e);
            t.ready != s.ready || t.time != s.time || t.history != s.history ==>
              (e.Stamp? || e.SetReady?) && e.id in s.accesses && Recording(s.accesses[e.id]) &&
              Observes(s.accesses[e.id].result)
  {
    InitialInv();
    RunKeeps(Initial, events);
    hide Run, Holders, Exclusive, Paired, Shown;
  }
}
