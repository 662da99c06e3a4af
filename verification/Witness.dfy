/** The offline search for a dependency cycle or an overlong chain, with a witness. */
module Witness {
  import opened Products
  import opened Digraph
  import opened Bundle
  import Order

  const MAX_STEPS := 64

  /** One declared dependency: the input at this position of the document at this origin. */
  datatype Step = Step(origin: Origin, input: nat)

  datatype Code = Clean | ValidationLimit | CompositionCycle | CompositionLimit

  /** The step leaves a and arrives at b, both in the bundle. */
  predicate Leaves(m: Index, a: string, s: Step, b: string)
  {
    a in m && b in m && s.origin == m[a].origin && s.input < |m[a].product.inputs|
    && b == Producer(m[a].product, m[a].product.inputs[s.input])
  }

  /** The steps form a chain of declared inputs from a to b. */
  ghost predicate Chain(m: Index, a: string, steps: seq<Step>, b: string)
    decreases |steps|
  {
    if steps == [] then a == b
    else exists c {:trigger Leaves(m, a, steps[0], c)} :: Leaves(m, a, steps[0], c) && Chain(m, c, steps[1..], b)
  }

  lemma {:induction false} ChainIsWalk(m: Index, a: string, steps: seq<Step>, b: string)
    requires Chain(m, a, steps, b)
    ensures Walk(Links(m), a, b, |steps|)
    decreases |steps|
  {
    if steps != [] {
      var c :| Leaves(m, a, steps[0], c) && Chain(m, c, steps[1..], b);
      ChainIsWalk(m, c, steps[1..], b);
      LeavesIsLink(m, a, steps[0], c);
    }
  }

  lemma {:induction false} LeavesIsLink(m: Index, a: string, s: Step, b: string)
    requires Leaves(m, a, s, b)
    ensures b in Succ(Links(m), a)
  {
  }

  lemma {:induction false} LinkIsLeaving(m: Index, a: string, b: string) returns (i: nat)
    requires b in Succ(Links(m), a)
    ensures a in m && b in m && i < |m[a].product.inputs| && b == Producer(m[a].product, m[a].product.inputs[i])
  {
    i :| 0 <= i < |m[a].product.inputs| && b == Producer(m[a].product, m[a].product.inputs[i]);
  }

  lemma {:induction false} ChainJoins(m: Index, a: string, s: seq<Step>, b: string, t: seq<Step>, c: string)
    requires Chain(m, a, s, b) && Chain(m, b, t, c)
    ensures Chain(m, a, s + t, c)
    decreases |s|
  {
    if s == [] {
      assert s + t == t;
    } else {
      var x :| Leaves(m, a, s[0], x) && Chain(m, x, s[1..], b);
      ChainJoins(m, x, s[1..], b, t, c);
      assert (s + t)[1..] == s[1..] + t && (s + t)[0] == s[0];
    }
  }

  lemma {:induction false} OneStep(m: Index, a: string, s: Step, b: string)
    requires Leaves(m, a, s, b)
    ensures Chain(m, a, [s], b)
  {
    assert [s][0] == s && Chain(m, b, [s][1..], b);
  }

  // ---------------------------------------------------------------- what the memo holds

  /** Some chain from k is the memoised suffix. */
  ghost predicate Genuine(m: Index, k: string, steps: seq<Step>)
  {
    exists e :: Chain(m, k, steps, e)
  }

  /** The suffix of k is one step longer than that of every producer reached so far. */
  ghost predicate Dominates(m: Index, suffixes: map<string, seq<Step>>, k: string, inputs: nat, longest: seq<Step>)
    requires k in m && inputs <= |m[k].product.inputs|
  {
    forall i {:trigger m[k].product.inputs[i]} ::
      0 <= i < inputs && Producer(m[k].product, m[k].product.inputs[i]) in m ==>
      var t := Producer(m[k].product, m[k].product.inputs[i]);
      t in suffixes && |suffixes[t]| < |longest|
  }

  ghost predicate Memo(m: Index, suffixes: map<string, seq<Step>>)
  {
    forall k {:trigger suffixes[k]} :: k in suffixes ==>
      k in m && Genuine(m, k, suffixes[k]) && Dominates(m, suffixes, k, |m[k].product.inputs|, suffixes[k])
  }

  ghost predicate Grown(a: map<string, seq<Step>>, b: map<string, seq<Step>>)
  {
    forall k {:trigger b[k]} {:trigger a[k]} :: k in a ==> k in b && b[k] == a[k]
  }

  /** Chains from a memoised key are at most as long as its suffix. */
  lemma {:induction false} SuffixBounds(m: Index, suffixes: map<string, seq<Step>>, k: string, x: string, n: nat)
    requires Memo(m, suffixes) && k in suffixes && Walk(Links(m), k, x, n)
    ensures n <= |suffixes[k]|
  {
    var rank := map y | y in suffixes :: |suffixes[y]|;
    forall a, b {:trigger b in Succ(Links(m), a)} | a in suffixes.Keys && b in Succ(Links(m), a)
      ensures b in suffixes.Keys && rank[b] < rank[a]
    {
      var i := LinkIsLeaving(m, a, b);
      assert Dominates(m, suffixes, a, |m[a].product.inputs|, suffixes[a]);
      assert b == Producer(m[a].product, m[a].product.inputs[i]);
    }
    RankFalls(Links(m), suffixes.Keys, rank, k, x, n);
  }

  lemma {:induction false} DominatesGrown(m: Index, a: map<string, seq<Step>>, b: map<string, seq<Step>>, k: string,
                                          inputs: nat,
                       longest: seq<Step>, longer: seq<Step>)
    requires k in m && inputs <= |m[k].product.inputs|
    requires Dominates(m, a, k, inputs, longest) && Grown(a, b) && |longest| <= |longer|
    ensures Dominates(m, b, k, inputs, longer)
  {
  }

  /** Memoising one more key keeps the memo. */
  lemma {:induction false} MemoAdds(m: Index, a: map<string, seq<Step>>, k: string, longest: seq<Step>)
    requires Memo(m, a) && k in m && k !in a && Genuine(m, k, longest)
    requires Dominates(m, a, k, |m[k].product.inputs|, longest)
    ensures Memo(m, a[k := longest])
  {
    var b := a[k := longest];
    hide Genuine, Dominates;
    forall x | x in b
      ensures x in m && Genuine(m, x, b[x]) && Dominates(m, b, x, |m[x].product.inputs|, b[x])
    {
      DominatesGrown(m, a, b, x, |m[x].product.inputs|, b[x], b[x]);
    }
  }

  // ---------------------------------------------------------------- the search

  /** What the stack and the active map say while `here` is about to be visited, on the way from root. */
  ghost predicate OnStack(m: Index, root: string, stack: seq<Step>, active: map<string, nat>, here: string)
  {
    && |stack| <= MAX_STEPS
    && Chain(m, root, stack, here)
    && forall k {:trigger active[k]} :: k in active ==> active[k] <= |stack| && Chain(m, k, stack[active[k]..], here)
  }

  /** A genuine closed chain of declared inputs, of at most 64 steps. */
  ghost predicate CycleWitness(m: Index, steps: seq<Step>)
  {
    0 < |steps| <= MAX_STEPS && exists k :: Chain(m, k, steps, k)
  }

  /** A genuine chain of at least 64 declared inputs. */
  ghost predicate DepthWitness(m: Index, steps: seq<Step>)
  {
    |steps| >= MAX_STEPS && exists a, b :: Chain(m, a, steps, b)
  }

  ghost predicate Justified(m: Index, code: Code, steps: seq<Step>)
  {
    match code
    case Clean => true
    case ValidationLimit => steps == []
    case CompositionCycle => CycleWitness(m, steps)
    case CompositionLimit => DepthWitness(m, steps)
  }

  lemma {:induction false} StackPushes(m: Index, root: string, stack: seq<Step>, active: map<string, nat>, here: string,
                                       s: Step, next: string)
    requires OnStack(m, root, stack, active, here) && |stack| < MAX_STEPS && Leaves(m, here, s, next)
    ensures OnStack(m, root, stack + [s], active, next)
  {
    OneStep(m, here, s, next);
    ChainJoins(m, root, stack, here, [s], next);
    forall k | k in active
      ensures active[k] <= |stack + [s]| && Chain(m, k, (stack + [s])[active[k]..], next)
    {
      ChainJoins(m, k, stack[active[k]..], here, [s], next);
      assert (stack + [s])[active[k]..] == stack[active[k]..] + [s];
    }
  }

  lemma {:induction false} StackOpens(m: Index, root: string, stack: seq<Step>, active: map<string, nat>, here: string)
    requires OnStack(m, root, stack, active, here)
    ensures OnStack(m, root, stack, active[here := |stack|], here)
  {
    assert stack[|stack|..] == [];
    hide Chain;
    assert Chain(m, here, stack[|stack|..], here) by {
      EmptyChain(m, here, stack[|stack|..]);
    }
  }

  lemma {:induction false} EmptyChain(m: Index, here: string, steps: seq<Step>)
    requires steps == []
    ensures Chain(m, here, steps, here)
  {
  }

  lemma {:induction false} CycleFound(m: Index, root: string, stack: seq<Step>, active: map<string, nat>, here: string)
    requires OnStack(m, root, stack, active, here) && here in active && active[here] < |stack|
    ensures CycleWitness(m, stack[active[here]..])
  {
    hide Chain;
    assert Chain(m, here, stack[active[here]..], here);
  }

  lemma {:induction false} DepthFound(m: Index, root: string, stack: seq<Step>, active: map<string, nat>, here: string,
                                      suffix: seq<Step>)
    requires OnStack(m, root, stack, active, here) && Genuine(m, here, suffix) && |stack| + |suffix| >= MAX_STEPS
    ensures DepthWitness(m, stack + suffix)
  {
    hide Chain;
    var e :| Chain(m, here, suffix, e);
    ChainJoins(m, root, stack, here, suffix, e);
  }

  class Search {
    const m: Index
    const deadline: Option<nat>
    var clock: nat
    var active: map<string, nat>
    var suffixes: map<string, seq<Step>>
    var stack: seq<Step>

    constructor (m: Index, deadline: Option<nat>)
      ensures this.m == m && this.deadline == deadline && active == map[] && suffixes == map[] && stack == []
    {
      this.m, this.deadline := m, deadline;
      clock, active, suffixes, stack := 0, map[], map[], [];
    }

    /** The search stands before `here`; every open key was left through the stack. */
    ghost predicate Standing(root: string, here: string)
      reads this
    {
      && here in m && OnStack(m, root, stack, active, here) && Memo(m, suffixes)
      && active.Keys !! suffixes.Keys
      && forall k {:trigger active[k]} :: k in active ==> active[k] < |stack|
    }

    /**
     Memoised suffixes decide the depth limit as a walk without memo would: a key is accepted with its longest
     suffix, or the search ends with a genuine cycle or a genuine overlong chain.
     */
    method Visit(root: string, here: string) returns (suffix: seq<Step>, code: Code, trail: seq<Step>)
      requires Standing(root, here)
      modifies this
      ensures Justified(m, code, trail) && stack == old(stack)
      ensures code == ValidationLimit ==> deadline.Some?
      ensures code == Clean ==>
                && active == old(active) && Memo(m, suffixes) && Grown(old(suffixes), suffixes)
                && active.Keys !! suffixes.Keys
                && here in suffixes && suffix == suffixes[here] && |stack| + |suffix| < MAX_STEPS
      decreases MAX_STEPS - |stack|
    {
      hide Chain, Memo, Genuine, Dominates, Grown, CycleWitness, DepthWitness;
      GrownAll();
      suffix, code, trail := [], Clean, [];
      var now := clock;
      clock := clock + 1;
      if deadline.Some? && deadline.value <= now {
        return [], ValidationLimit, [];
      }
      if here in active {
        CycleFound(m, root, stack, active, here);
        return [], CompositionCycle, stack[active[here]..];
      }
      if here in suffixes {
        if |stack| + |suffixes[here]| >= MAX_STEPS {
          MemoGenuine(m, suffixes, here);
          DepthFound(m, root, stack, active, here, suffixes[here]);
          return [], CompositionLimit, stack + suffixes[here];
        }
        return suffixes[here], Clean, [];
      }
      if |stack| >= MAX_STEPS {
        StartsEmpty(m, suffixes, here);
        DepthFound(m, root, stack, active, here, []);
        assert stack + [] == stack;
        return [], CompositionLimit, stack;
      }
      ghost var outer := active;
      StackOpens(m, root, stack, active, here);
      active := active[here := |stack|];
      suffix, code, trail := VisitInputs(root, here);
      if code != Clean {
        return [], code, trail;
      }
      active := active - {here};
      assert active == outer;
      MemoAdds(m, suffixes, here, suffix);
      GrownAdds(old(suffixes), suffixes, here, suffix);
      suffixes := suffixes[here := suffix];
    }

    /** The loop over the inputs of the open key. */
    method VisitInputs(root: string, here: string) returns (longest: seq<Step>, code: Code, trail: seq<Step>)
      requires here in m && |stack| < MAX_STEPS && OnStack(m, root, stack, active, here) && Memo(m, suffixes)
      requires active.Keys !! suffixes.Keys && here in active
      requires forall k {:trigger active[k]} :: k in active ==> active[k] <= |stack|
      modifies this
      ensures Justified(m, code, trail) && stack == old(stack)
      ensures code == ValidationLimit ==> deadline.Some?
      ensures code == Clean ==>
                && active == old(active) && Memo(m, suffixes) && Grown(old(suffixes), suffixes)
                && active.Keys !! suffixes.Keys && |stack| + |longest| < MAX_STEPS
                && Genuine(m, here, longest) && Dominates(m, suffixes, here, |m[here].product.inputs|, longest)
      decreases MAX_STEPS - |stack|, 0
    {
      hide OnStack, Memo, Genuine, Dominates, Producer, Grown, CycleWitness, DepthWitness;
      GrownAll();
      longest, code, trail := [], Clean, [];
      var doc := m[here];
      StartsEmpty(m, suffixes, here);
      var index := 0;
      while index < |doc.product.inputs|
        invariant 0 <= index <= |doc.product.inputs|
        invariant code == Clean && stack == old(stack) && active == old(active) && Memo(m, suffixes) &&
                  Grown(old(suffixes), suffixes)
        invariant active.Keys !! suffixes.Keys && |stack| + |longest| < MAX_STEPS
        invariant Genuine(m, here, longest) && Dominates(m, suffixes, here, index, longest)
      {
        var producer := Producer(doc.product, doc.product.inputs[index]);
        ghost var before := suffixes;
        if producer in m {
          var step := Step(doc.origin, index);
          InputLeaves(m, here, step, producer);
          StackPushes(m, root, stack, active, here, step, producer);
          stack := stack + [step];
          var suffix;
          suffix, code, trail := Visit(root, producer);
          stack := stack[..|stack| - 1];
          if code != Clean {
            return [], code, trail;
          }
          var candidate := [step] + suffix;
          CandidateGenuine(m, suffixes, here, step, producer);
          ghost var was := longest;
          if |candidate| > |longest| {
            longest := candidate;
          }
          GrownJoins(old(suffixes), before, suffixes);
          DominatesMore(m, before, suffixes, here, index, was, longest);
        } else {
          SkipsMissing(m, suffixes, here, index, longest);
        }
        index := index + 1;
      }
    }
  }

  lemma {:induction false} MemoGenuine(m: Index, suffixes: map<string, seq<Step>>, k: string)
    requires Memo(m, suffixes) && k in suffixes
    ensures Genuine(m, k, suffixes[k])
  {
    hide Genuine, Dominates;
  }

  lemma {:induction false} GrownAll()
    ensures forall a {:trigger Grown(a, a)} :: Grown(a, a)
  {
  }

  lemma {:induction false} GrownJoins(a: map<string, seq<Step>>, b: map<string, seq<Step>>, c: map<string, seq<Step>>)
    requires Grown(a, b) && Grown(b, c)
    ensures Grown(a, c)
  {
  }

  lemma {:induction false} GrownAdds(a: map<string, seq<Step>>, b: map<string, seq<Step>>, k: string, suffix: seq<Step>)
    requires Grown(a, b) && k !in b
    ensures Grown(a, b[k := suffix])
  {
  }

  lemma {:induction false} StartsEmpty(m: Index, suffixes: map<string, seq<Step>>, here: string)
    requires here in m
    ensures Genuine(m, here, []) && Dominates(m, suffixes, here, 0, [])
  {
    assert Chain(m, here, [], here);
  }

  lemma {:induction false} InputLeaves(m: Index, here: string, step: Step, producer: string)
    requires here in m && producer in m && step.origin == m[here].origin && step.input < |m[here].product.inputs|
    requires producer == Producer(m[here].product, m[here].product.inputs[step.input])
    ensures Leaves(m, here, step, producer)
  {
  }

  lemma {:induction false} CandidateGenuine(m: Index, suffixes: map<string, seq<Step>>, here: string, step: Step,
                                            producer: string)
    requires Leaves(m, here, step, producer) && Memo(m, suffixes) && producer in suffixes
    ensures Genuine(m, here, [step] + suffixes[producer])
  {
    hide Leaves, Chain, Dominates;
    var e :| Chain(m, producer, suffixes[producer], e);
    OneStep(m, here, step, producer);
    ChainJoins(m, here, [step], producer, suffixes[producer], e);
  }

  lemma {:induction false} DominatesMore(m: Index, a: map<string, seq<Step>>, b: map<string, seq<Step>>, here: string,
                                         index: nat,
                      was: seq<Step>, longest: seq<Step>)
    requires here in m && index < |m[here].product.inputs| && Dominates(m, a, here, index, was) && Grown(a, b)
    requires |was| <= |longest|
    requires var t := Producer(m[here].product, m[here].product.inputs[index]);
             t in b && |b[t]| < |longest|
    ensures Dominates(m, b, here, index + 1, longest)
  {
  }

  lemma {:induction false} SkipsMissing(m: Index, a: map<string, seq<Step>>, here: string, index: nat,
                                        longest: seq<Step>)
    requires here in m && index < |m[here].product.inputs| && Dominates(m, a, here, index, longest)
    requires Producer(m[here].product, m[here].product.inputs[index]) !in m
    ensures Dominates(m, a, here, index + 1, longest)
  {
  }

  // ---------------------------------------------------------------- the whole bundle

  /** No cycle inside the bundle, and no chain of more than 63 dependencies. */
  ghost predicate Bounded(m: Index)
  {
    Acyclic(Links(m)) && forall a, b, n: nat :: Walk(Links(m), a, b, n) ==> n < MAX_STEPS
  }

  /** A finding carries the first 64 steps of a genuine witness, and says whether there were more. */
  ghost predicate Reported(m: Index, code: Code, trail: seq<Step>, truncated: bool)
  {
    exists full :: Justified(m, code, full) && trail == First(full) && (truncated <==> |full| > MAX_STEPS)
  }

  function First(steps: seq<Step>): seq<Step>
  {
    if |steps| > MAX_STEPS then steps[..MAX_STEPS] else steps
  }

  /** Every key is memoised with less than 64 steps: the bundle is bounded. */
  lemma {:induction false} AllMemoised(m: Index, suffixes: map<string, seq<Step>>)
    requires Memo(m, suffixes) && suffixes.Keys == m.Keys && forall k :: k in suffixes ==> |suffixes[k]| < MAX_STEPS
    ensures Bounded(m)
  {
    forall a, b, n: nat | Walk(Links(m), a, b, n)
      ensures n < MAX_STEPS
    {
      if a in suffixes {
        SuffixBounds(m, suffixes, a, b, n);
      }
    }
    forall k, n: nat | Walk(Links(m), k, k, n)
      ensures n == 0
    {
      hide Memo, Links;
      ReachesItself(Links(m), k);
      BoundedIsAcyclic(Links(m), k, k, n, MAX_STEPS);
    }
  }

  /** A finding of either kind refutes the bound. */
  lemma {:induction false} FindingRefutes(m: Index, code: Code, steps: seq<Step>)
    requires Justified(m, code, steps) && code in {CompositionCycle, CompositionLimit}
    ensures !Bounded(m)
  {
    hide Links;
    if code == CompositionCycle {
      var k :| Chain(m, k, steps, k);
      ChainIsWalk(m, k, steps, k);
    } else {
      var a, b :| Chain(m, a, steps, b);
      ChainIsWalk(m, a, steps, b);
    }
  }

  lemma {:induction false} FirstOrigin(docs: seq<Document>, m: Index, a: string, steps: seq<Step>, b: string)
    requires m == ByKey(docs) && Chain(m, a, steps, b) && steps != []
    ensures exists i :: 0 <= i < |docs| && docs[i].origin == steps[0].origin
  {
    var c :| Leaves(m, a, steps[0], c);
    assert m[a] in docs;
  }

  /** The first document whose origin is that of the first step, or else the document of the key. */
  method Ordinal(docs: seq<Document>, fallback: nat, trail: seq<Step>) returns (number: nat)
    ensures number == fallback || (trail != [] && 1 <= number <= |docs|)
    ensures trail != [] && (exists i :: 0 <= i < |docs| && docs[i].origin == trail[0].origin) ==>
              1 <= number <= |docs| && docs[number - 1].origin == trail[0].origin
  {
    number := fallback;
    if trail != [] {
      for index := 0 to |docs|
        invariant number == fallback
        invariant forall i :: 0 <= i < index ==> docs[i].origin != trail[0].origin
      {
        if docs[index].origin == trail[0].origin {
          return index + 1;
        }
      }
    }
  }

  method Indexed(docs: seq<Document>) returns (byKey: Index, ordinals: map<string, nat>, keys: seq<string>)
    ensures byKey == ByKey(docs) && ordinals.Keys == byKey.Keys
    ensures forall k :: k in keys <==> k in byKey
    ensures forall k {:trigger ordinals[k]} :: k in ordinals ==> 1 <= ordinals[k] <= |docs|
  {
    byKey, ordinals, keys := map[], map[], [];
    for index := 0 to |docs|
      invariant byKey == ByKey(docs[..index])
      invariant forall k :: k in keys <==> k in byKey
      invariant ordinals.Keys == byKey.Keys
      invariant forall k :: k in ordinals ==> 1 <= ordinals[k] <= index
    {
      var key := KeyOf(docs[index]);
      assert docs[..index + 1][..index] == docs[..index] && docs[..index + 1][index] == docs[index];
      byKey := byKey[key := docs[index]];
      ordinals := ordinals[key := index + 1];
      keys := keys + [key];
    }
    assert docs[..|docs|] == docs;
  }

  lemma {:induction false} SortedKeys(keys: seq<string>, sorted: seq<string>, m: Index)
    requires multiset(sorted) == multiset(keys) && forall k :: k in keys <==> k in m
    ensures forall i {:trigger sorted[i]} :: 0 <= i < |sorted| ==> sorted[i] in m
    ensures forall k :: k in m ==> k in sorted
  {
    forall k
      ensures k in sorted <==> k in m
    {
      Order.PermutationMember(sorted, keys, k);
    }
  }

  lemma {:induction false} AllVisited(m: Index, suffixes: map<string, seq<Step>>, sorted: seq<string>)
    requires suffixes.Keys <= m.Keys && forall k :: k in m ==> k in sorted
    requires forall i {:trigger sorted[i]} :: 0 <= i < |sorted| ==>
               sorted[i] in suffixes && |suffixes[sorted[i]]| < MAX_STEPS
    ensures suffixes.Keys == m.Keys && forall k :: k in suffixes ==> |suffixes[k]| < MAX_STEPS
  {
    forall k | k in m
      ensures k in suffixes && |suffixes[k]| < MAX_STEPS
    {
      var i :| 0 <= i < |sorted| && sorted[i] == k;
    }
  }

  /** The first 64 steps start like the whole. */
  lemma {:induction false} FirstStarts(steps: seq<Step>)
    ensures First(steps) != [] <==> steps != []
    ensures steps != [] ==> First(steps)[0] == steps[0]
  {
  }

  /**
   The search over all keys in textual order. Without a deadline it finds nothing exactly when the bundle is
   acyclic and no chain has more than 63 dependencies; every finding is backed by a genuine witness.
   */
  method GraphWitness(docs: seq<Document>, deadline: Option<nat>)
    returns (number: nat, code: Code, trail: seq<Step>, truncated: bool)
    ensures code == Clean ==> Bounded(ByKey(docs)) && number == 0
    ensures code != Clean ==> Reported(ByKey(docs), code, trail, truncated) && 1 <= number <= |docs|
    ensures code != Clean && trail != [] ==> docs[number - 1].origin == trail[0].origin
    ensures code == ValidationLimit ==> deadline.Some?
    ensures deadline.None? ==> (code == Clean <==> Bounded(ByKey(docs)))
  {
    hide *;
    var byKey, ordinals, keys := Indexed(docs);
    ghost var m := ByKey(docs);
    var sorted := Order.Sort(keys, Order.Self);
    SortedKeys(keys, sorted, m);
    var search := new Search(byKey, deadline);
    EmptyMemo(m);
    for next := 0 to |sorted|
      invariant search.stack == [] && search.active == map[] && Memo(m, search.suffixes)
      invariant forall i {:trigger sorted[i]} :: 0 <= i < next ==>
                  sorted[i] in search.suffixes && |search.suffixes[sorted[i]]| < MAX_STEPS
    {
      var key := sorted[next];
      EmptyStack(m, key);
      StandsAlone(search, key);
      ghost var before := search.suffixes;
      var suffix;
      suffix, code, trail := search.Visit(key, key);
      if code != Clean {
        JustifiedOrigin(docs, m, code, trail);
        number := Ordinal(docs, ordinals[key], trail);
        ReportedIs(m, code, trail);
        FirstStarts(trail);
        truncated := |trail| > MAX_STEPS;
        trail := First(trail);
        return;
      }
      GrownKeeps(before, search.suffixes, sorted[..next]);
    }
    MemoKeys(m, search.suffixes);
    AllVisited(m, search.suffixes, sorted);
    AllMemoised(m, search.suffixes);
    return 0, Clean, [], false;
  }

  lemma {:induction false} EmptyMemo(m: Index)
    ensures Memo(m, map[])
  {
  }

  lemma {:induction false} EmptyStack(m: Index, key: string)
    ensures OnStack(m, key, [], map[], key)
  {
  }

  lemma {:induction false} StandsAlone(search: Search, key: string)
    requires key in search.m && search.stack == [] && search.active == map[] && Memo(search.m, search.suffixes)
    requires OnStack(search.m, key, [], map[], key)
    ensures search.Standing(key, key)
  {
  }

  lemma {:induction false} MemoKeys(m: Index, suffixes: map<string, seq<Step>>)
    requires Memo(m, suffixes)
    ensures suffixes.Keys <= m.Keys
  {
    hide Genuine, Dominates;
    forall k | k in suffixes
      ensures k in m
    {
      assert suffixes[k] == suffixes[k];
    }
  }

  lemma {:induction false} GrownKeeps(a: map<string, seq<Step>>, b: map<string, seq<Step>>, keys: seq<string>)
    requires Grown(a, b)
    requires forall i {:trigger keys[i]} :: 0 <= i < |keys| ==> keys[i] in a && |a[keys[i]]| < MAX_STEPS
    ensures forall i {:trigger keys[i]} :: 0 <= i < |keys| ==> keys[i] in b && |b[keys[i]]| < MAX_STEPS
  {
  }

  lemma {:induction false} JustifiedOrigin(docs: seq<Document>, m: Index, code: Code, steps: seq<Step>)
    requires m == ByKey(docs) && Justified(m, code, steps) && code != Clean
    ensures steps != [] ==> exists i :: 0 <= i < |docs| && docs[i].origin == steps[0].origin
  {
    hide Chain;
    if steps != [] {
      if code == CompositionCycle {
        var k :| Chain(m, k, steps, k);
        FirstOrigin(docs, m, k, steps, k);
      } else {
        var a, b :| Chain(m, a, steps, b);
        FirstOrigin(docs, m, a, steps, b);
      }
    }
  }

  lemma {:induction false} ReportedIs(m: Index, code: Code, steps: seq<Step>)
    requires Justified(m, code, steps)
    ensures Reported(m, code, First(steps), |steps| > MAX_STEPS)
    ensures code in {CompositionCycle, CompositionLimit} ==> !Bounded(m)
  {
    if code in {CompositionCycle, CompositionLimit} {
      FindingRefutes(m, code, steps);
    }
    hide Justified;
  }
}
