/**
 Infinite runs of the controller: under weak fairness towards workers and timers, every run with composition that has
 become calm consists of fair rounds, and so comes to rest for good.
 */
module Fairness {
  import opened Products
  import opened Composition
  import opened Reconcile
  import opened WorkQueue
  import opened Readiness
  import opened Convergence

  type States = nat -> System

  type Steps = nat -> Step

  ghost predicate Forever(states: States, steps: Steps, c: Settings)
  {
    Init(states(0)) && forall i: nat {:trigger steps(i)} :: Next(states(i), states(i + 1), c, steps(i))
  }

  /** From a on no declaration and no local state changes, and no read or listing fails. */
  ghost predicate CalmForever(steps: Steps, a: nat)
  {
    forall i: nat {:trigger steps(i)} :: a <= i ==> CalmStep(steps(i))
  }

  predicate CanBegin(sys: System, k: Key)
  {
    k in sys.queue && k !in sys.running
  }

  predicate Ends(step: Step, k: Key)
  {
    step.CommitStep? && step.k == k
  }

  /** From i on, a run for k begins or cannot begin at some point. */
  ghost predicate BeginsFrom(states: States, steps: Steps, k: Key, i: nat)
  {
    exists j: nat {:trigger steps(j)} :: i <= j && (steps(j) == BeginStep(k) || !CanBegin(states(j), k))
  }

  ghost predicate EndsFrom(states: States, steps: Steps, k: Key, i: nat)
  {
    exists j: nat {:trigger steps(j)} :: i <= j && (Ends(steps(j), k) || k !in states(j).running)
  }

  ghost predicate FiresFrom(states: States, steps: Steps, k: Key, i: nat)
  {
    exists j: nat {:trigger steps(j)} :: i <= j && (steps(j) == FireStep(k) || k !in states(j).timers)
  }

  /** Whatever stays possible happens: a queued key is taken, a run ends, a timer fires. */
  ghost predicate WeaklyFair(states: States, steps: Steps)
  {
    && (forall k, i: nat {:trigger BeginsFrom(states, steps, k, i)} :: BeginsFrom(states, steps, k, i))
    && (forall k, i: nat {:trigger EndsFrom(states, steps, k, i)} :: EndsFrom(states, steps, k, i))
    && (forall k, i: nat {:trigger FiresFrom(states, steps, k, i)} :: FiresFrom(states, steps, k, i))
  }

  // ---------------------------------------------------------------- what only one step can do

  lemma {:induction false} StepAt(states: States, steps: Steps, c: Settings, i: nat)
    requires Forever(states, steps, c)
    ensures Next(states(i), states(i + 1), c, steps(i))
  {
    hide Next, Init;
    var step := steps(i);
  }

  /** Only the end of a run for k makes k stop running, only its beginning starts it and takes k from the queue. */
  lemma {:induction false} OnlySteps(sys: System, next: System, c: Settings, step: Step, k: Key)
    requires Next(sys, next, c, step)
    ensures k in sys.running && k !in next.running ==> Ends(step, k)
    ensures k !in sys.running && k in next.running ==> step == BeginStep(k)
    ensures k in sys.queue && k !in next.queue ==> step == BeginStep(k)
    ensures k in sys.timers && k !in next.timers ==> step == FireStep(k)
    ensures step == BeginStep(k) ==> k in next.running
    ensures step == FireStep(k) ==> k in next.queue
    ensures Ends(step, k) ==> k !in next.running
  {
    hide Run, Mixed, Requests, Same;
  }

  /** A run that is in progress ends. */
  lemma {:induction false} RunEnds(states: States, steps: Steps, c: Settings, k: Key, i: nat) returns (n: nat)
    requires Forever(states, steps, c) && WeaklyFair(states, steps) && k in states(i).running
    ensures i <= n && Ends(steps(n), k)
  {
    hide Forever, Ends;
    assert EndsFrom(states, steps, k, i);
    var j: nat :| i <= j && (Ends(steps(j), k) || k !in states(j).running);
    if Ends(steps(j), k) {
      n := j;
    } else {
      n := StopsRunning(states, steps, c, k, i, j);
    }
  }

  lemma {:induction false} StopsRunning(states: States, steps: Steps, c: Settings, k: Key, i: nat, j: nat)
    returns (n: nat)
    requires Forever(states, steps, c) && i <= j && k in states(i).running && k !in states(j).running
    ensures i <= n < j && Ends(steps(n), k)
    decreases j - i
  {
    hide Forever, Next, Ends;
    StepAt(states, steps, c, i);
    OnlySteps(states(i), states(i + 1), c, steps(i), k);
    if k !in states(i + 1).running {
      n := i;
    } else {
      n := StopsRunning(states, steps, c, k, i + 1, j);
    }
  }

  /** A key that is queued while nobody processes it is taken. */
  lemma {:induction false} RunBegins(states: States, steps: Steps, c: Settings, k: Key, i: nat) returns (m: nat)
    requires Forever(states, steps, c) && WeaklyFair(states, steps) && CanBegin(states(i), k)
    ensures i <= m && steps(m) == BeginStep(k)
  {
    hide Forever;
    assert BeginsFrom(states, steps, k, i);
    var j: nat :| i <= j && (steps(j) == BeginStep(k) || !CanBegin(states(j), k));
    if steps(j) == BeginStep(k) {
      m := j;
    } else {
      m := StopsWaiting(states, steps, c, k, i, j);
    }
  }

  lemma {:induction false} StopsWaiting(states: States, steps: Steps, c: Settings, k: Key, i: nat, j: nat)
    returns (m: nat)
    requires Forever(states, steps, c) && i <= j && CanBegin(states(i), k) && !CanBegin(states(j), k)
    ensures i <= m < j && steps(m) == BeginStep(k)
    decreases j - i
  {
    hide Forever, Next;
    StepAt(states, steps, c, i);
    OnlySteps(states(i), states(i + 1), c, steps(i), k);
    if !CanBegin(states(i + 1), k) {
      m := i;
    } else {
      m := StopsWaiting(states, steps, c, k, i + 1, j);
    }
  }

  /** A pending timer fires. */
  lemma {:induction false} TimerFires(states: States, steps: Steps, c: Settings, k: Key, i: nat) returns (m: nat)
    requires Forever(states, steps, c) && WeaklyFair(states, steps) && k in states(i).timers
    ensures i <= m && k in states(m).queue
  {
    hide Forever, Next;
    assert FiresFrom(states, steps, k, i);
    var j: nat :| i <= j && (steps(j) == FireStep(k) || k !in states(j).timers);
    if steps(j) != FireStep(k) {
      j := LosesTimer(states, steps, c, k, i, j);
    }
    StepAt(states, steps, c, j);
    OnlySteps(states(j), states(j + 1), c, steps(j), k);
    m := j + 1;
  }

  lemma {:induction false} LosesTimer(states: States, steps: Steps, c: Settings, k: Key, i: nat, j: nat)
    returns (m: nat)
    requires Forever(states, steps, c) && i <= j && k in states(i).timers && k !in states(j).timers
    ensures i <= m < j && steps(m) == FireStep(k)
    decreases j - i
  {
    hide Forever, Next;
    StepAt(states, steps, c, i);
    OnlySteps(states(i), states(i + 1), c, steps(i), k);
    if k !in states(i + 1).timers {
      m := i;
    } else {
      m := LosesTimer(states, steps, c, k, i + 1, j);
    }
  }

  lemma {:induction false} StartsRunning(states: States, steps: Steps, c: Settings, k: Key, i: nat, j: nat)
    returns (m: nat)
    requires Forever(states, steps, c) && i <= j && k !in states(i).running && k in states(j).running
    ensures i <= m < j && steps(m) == BeginStep(k)
    decreases j - i
  {
    hide Forever, Next;
    StepAt(states, steps, c, i);
    OnlySteps(states(i), states(i + 1), c, steps(i), k);
    if k in states(i + 1).running {
      m := i;
    } else {
      m := StartsRunning(states, steps, c, k, i + 1, j);
    }
  }

  // ---------------------------------------------------------------- everyone is attended

  /** Between i and j a whole run for k takes place, or nothing is outstanding for k at some point. */
  ghost predicate AttendedBy(states: States, steps: Steps, k: Key, i: nat, j: nat)
  {
    || (exists m: nat, n: nat {:trigger steps(m), steps(n)} ::
          i <= m < n < j && steps(m) == BeginStep(k) && Ends(steps(n), k))
    || exists m: nat {:trigger states(m)} :: i <= m <= j && !Outstanding(states(m), k)
  }

  lemma {:induction false} AttendedLater(states: States, steps: Steps, k: Key, i: nat, j: nat, later: nat)
    requires AttendedBy(states, steps, k, i, j) && j <= later
    ensures AttendedBy(states, steps, k, i, later)
  {
    hide Ends, Outstanding;
  }

  /** From the beginning of a run for k on, its end follows. */
  lemma {:induction false} BegunIsAttended(states: States, steps: Steps, c: Settings, k: Key, i: nat, m: nat)
    returns (j: nat)
    requires Forever(states, steps, c) && WeaklyFair(states, steps) && i <= m && steps(m) == BeginStep(k)
    ensures i <= j && AttendedBy(states, steps, k, i, j)
  {
    hide Forever, WeaklyFair, Next, Ends, Outstanding;
    StepAt(states, steps, c, m);
    OnlySteps(states(m), states(m + 1), c, steps(m), k);
    var n := RunEnds(states, steps, c, k, m + 1);
    j := n + 1;
  }

  /** A key nobody processes is attended: it is queued, or its timer will queue it, or nothing is outstanding. */
  lemma {:induction false} IdleIsAttended(states: States, steps: Steps, c: Settings, k: Key, i: nat, h: nat)
    returns (j: nat)
    requires Forever(states, steps, c) && WeaklyFair(states, steps) && i <= h && k !in states(h).running
    ensures i <= j && AttendedBy(states, steps, k, i, j)
  {
    hide Forever, WeaklyFair, Next, Ends;
    if !Outstanding(states(h), k) {
      j := h;
    } else {
      var m := h;
      if k !in states(h).queue {
        m := TimerFires(states, steps, c, k, h);
      }
      var begin;
      if k in states(m).running {
        begin := StartsRunning(states, steps, c, k, h, m);
      } else {
        begin := RunBegins(states, steps, c, k, m);
      }
      j := BegunIsAttended(states, steps, c, k, i, begin);
    }
  }

  lemma {:induction false} Attends(states: States, steps: Steps, c: Settings, k: Key, i: nat) returns (j: nat)
    requires Forever(states, steps, c) && WeaklyFair(states, steps)
    ensures i <= j && AttendedBy(states, steps, k, i, j)
  {
    hide Forever, WeaklyFair, Next, Outstanding, AttendedBy;
    if k in states(i).running {
      var n := RunEnds(states, steps, c, k, i);
      StepAt(states, steps, c, n);
      OnlySteps(states(n), states(n + 1), c, steps(n), k);
      j := IdleIsAttended(states, steps, c, k, i, n + 1);
    } else {
      j := IdleIsAttended(states, steps, c, k, i, i);
    }
  }

  /** All keys of a finite set are attended by one point. */
  lemma {:induction false} AttendsAll(states: States, steps: Steps, c: Settings, ks: set<Key>, i: nat) returns (j: nat)
    requires Forever(states, steps, c) && WeaklyFair(states, steps)
    ensures i <= j && forall k {:trigger k in ks} :: k in ks ==> AttendedBy(states, steps, k, i, j)
    decreases ks
  {
    hide Forever, WeaklyFair, AttendedBy;
    if ks == {} {
      j := i;
    } else {
      var k :| k in ks;
      var x := AttendsAll(states, steps, c, ks - {k}, i);
      var y := Attends(states, steps, c, k, i);
      j := if x <= y then y else x;
      forall o | o in ks
        ensures AttendedBy(states, steps, o, i, j)
      {
        assert o != k ==> o in ks - {k};
        AttendedLater(states, steps, o, i, if o == k then y else x, j);
      }
    }
  }

  /** One fair round from i to j. */
  ghost predicate Round(states: States, steps: Steps, i: nat, j: nat)
  {
    i <= j && forall k {:trigger AttendedBy(states, steps, k, i, j)} :: k in states(i).store ==>
      AttendedBy(states, steps, k, i, j)
  }

  /** Any number of fair rounds, one after the other. */
  lemma {:induction false} RoundsFollow(states: States, steps: Steps, c: Settings, a: nat, count: nat)
    returns (marks: seq<nat>)
    requires Forever(states, steps, c) && WeaklyFair(states, steps)
    ensures |marks| == count + 1 && marks[0] == a
    ensures forall t {:trigger marks[t]} :: 0 < t < |marks| ==> Round(states, steps, marks[t - 1], marks[t])
    decreases count
  {
    hide Forever, WeaklyFair, AttendedBy;
    if count == 0 {
      marks := [a];
    } else {
      var before := RoundsFollow(states, steps, c, a, count - 1);
      var last := before[|before| - 1];
      var j := AttendsAll(states, steps, c, states(last).store.Keys, last);
      marks := before + [j];
    }
  }

  // ---------------------------------------------------------------- finite prefixes

  ghost function StatesTo(states: States, n: nat): (s: seq<System>)
    ensures |s| == n + 1 && forall i {:trigger s[i]} :: 0 <= i <= n ==> s[i] == states(i)
  {
    seq(n + 1, i requires 0 <= i <= n => states(i))
  }

  ghost function StepsTo(steps: Steps, n: nat): (s: seq<Step>)
    ensures |s| == n && forall i {:trigger s[i]} :: 0 <= i < n ==> s[i] == steps(i)
  {
    seq(n, i requires 0 <= i < n => steps(i))
  }

  lemma {:induction false} PrefixBehaves(states: States, steps: Steps, c: Settings, a: nat, n: nat)
    requires Forever(states, steps, c) && CalmForever(steps, a)
    ensures Behaviour(StatesTo(states, n), StepsTo(steps, n), c) && CalmFrom(StepsTo(steps, n), a)
  {
    hide Next, Init, CalmStep;
    var s, u := StatesTo(states, n), StepsTo(steps, n);
    forall i {:trigger u[i]} | 0 <= i < |u|
      ensures Next(s[i], s[i + 1], c, u[i])
    {
      StepAt(states, steps, c, i);
    }
  }

  lemma {:induction false} PrefixAttends(states: States, steps: Steps, k: Key, i: nat, j: nat, n: nat)
    requires AttendedBy(states, steps, k, i, j) && i <= j <= n
    ensures Attended(StatesTo(states, n), StepsTo(steps, n), k, i, j)
  {
    hide Outstanding;
    var s, u := StatesTo(states, n), StepsTo(steps, n);
    if m: nat, e: nat :| i <= m < e < j && steps(m) == BeginStep(k) && Ends(steps(e), k) {
      assert u[m] == BeginStep(k) && u[e] == steps(e);
    } else {
      var m: nat :| i <= m <= j && !Outstanding(states(m), k);
      assert s[m] == states(m);
    }
  }

  lemma {:induction false} PrefixRound(states: States, steps: Steps, i: nat, j: nat, n: nat)
    requires Round(states, steps, i, j) && j <= n
    ensures FairRound(StatesTo(states, n), StepsTo(steps, n), i, j)
  {
    hide AttendedBy, Attended;
    var s, u := StatesTo(states, n), StepsTo(steps, n);
    forall k {:trigger Attended(s, u, k, i, j)} | k in s[i].store
      ensures Attended(s, u, k, i, j)
    {
      PrefixAttends(states, steps, k, i, j, n);
    }
  }

  lemma {:induction false} MarksAscend(states: States, steps: Steps, marks: seq<nat>, t: nat)
    requires t < |marks|
    requires forall t {:trigger marks[t]} :: 0 < t < |marks| ==> Round(states, steps, marks[t - 1], marks[t])
    ensures marks[0] <= marks[t] <= marks[|marks| - 1]
  {
    hide Round;
    forall t {:trigger marks[t]} | 0 < t < |marks|
      ensures marks[t - 1] <= marks[t]
    {
      RoundAscends(states, steps, marks[t - 1], marks[t]);
    }
    Ascends(marks, 0, t);
    Ascends(marks, t, |marks| - 1);
  }

  lemma {:induction false} Ascends(marks: seq<nat>, i: nat, j: nat)
    requires i <= j < |marks|
    requires forall t {:trigger marks[t]} :: 0 < t < |marks| ==> marks[t - 1] <= marks[t]
    ensures marks[i] <= marks[j]
    decreases j - i
  {
    if i < j {
      Ascends(marks, i, j - 1);
    }
  }

  lemma {:induction false} PrefixRounds(states: States, steps: Steps, marks: seq<nat>, n: nat)
    requires marks != [] && marks[|marks| - 1] <= n
    requires forall t {:trigger marks[t]} :: 0 < t < |marks| ==> Round(states, steps, marks[t - 1], marks[t])
    ensures Rounds(StatesTo(states, n), StepsTo(steps, n), marks)
  {
    hide Round, FairRound;
    var s, u := StatesTo(states, n), StepsTo(steps, n);
    forall t {:trigger marks[t]} | 0 <= t < |marks|
      ensures marks[0] <= marks[t] < |s|
    {
      MarksAscend(states, steps, marks, t);
    }
    forall t {:trigger marks[t]} | 0 < t < |marks|
      ensures marks[t - 1] <= marks[t] && FairRound(s, u, marks[t - 1], marks[t])
    {
      RoundAscends(states, steps, marks[t - 1], marks[t]);
      MarksAscend(states, steps, marks, t);
      PrefixRound(states, steps, marks[t - 1], marks[t], n);
    }
  }

  lemma {:induction false} RoundAscends(states: States, steps: Steps, i: nat, j: nat)
    requires Round(states, steps, i, j)
    ensures i <= j
  {
    hide AttendedBy;
  }

  /**
   Every weakly fair run with composition settles: if from some point on no declaration and no local state changes and
   no read fails, there is a later point from which every recorded status is what a run would compute and nothing in
   the store changes, on any graph, although timers fire for ever.
   */
  lemma {:induction false} EveryFairRunSettles(states: States, steps: Steps, c: Settings, a: nat) returns (e: nat)
    requires Forever(states, steps, c) && c.composition && CalmForever(steps, a) && WeaklyFair(states, steps)
    ensures a <= e
    ensures forall i: nat {:trigger states(i)} :: e <= i ==>
              AtRest(states(i).store, c, states(i).local) && states(i).store == states(e).store
  {
    var rounds: nat := MAX_DEPTH + 1;
    hide *;
    var marks := RoundsFollow(states, steps, c, a, rounds);
    e := marks[|marks| - 1];
    MarksAscend(states, steps, marks, 0);
    forall i: nat {:trigger states(i)} | e <= i
      ensures AtRest(states(i).store, c, states(i).local) && states(i).store == states(e).store
    {
      PrefixBehaves(states, steps, c, a, i);
      PrefixRounds(states, steps, marks, i);
      var s, u := StatesTo(states, i), StepsTo(steps, i);
      StatusesConverge(s, u, c, marks, i);
      assert s[i] == states(i) && s[e] == states(e);
    }
  }
}
