/** The mapping from one product's event to the consumers to reconcile: a reverse breadth-first search. */
module Watches {
  import opened Products
  import opened Digraph
  import opened WorkQueue
  import opened Composition
  import Order

  /** "namespace/name", the order in which requests are returned. */
  function RequestText(k: Key): seq<string>
  {
    [k.ns + "/" + k.name]
  }

  /** A listing holds every stored product exactly once, in any order. */
  ghost predicate Lists(items: seq<Product>, s: Store)
  {
    && (forall p :: p in items ==> p.key in s && s[p.key] == p)
    && (forall k :: k in s ==> s[k] in items)
  }

  ghost predicate Consumes(s: Store, consumer: Key, producer: Key)
  {
    consumer in s && producer in Targets(s[consumer])
  }

  /** The reverse index records consumer under producer. */
  ghost predicate Indexed(index: map<Key, seq<Key>>, producer: Key, consumer: Key)
  {
    producer in index && consumer in index[producer]
  }

  ghost predicate AmongFirst(items: seq<Product>, n: nat, producer: Key, consumer: Key)
    requires n <= |items|
  {
    exists i :: 0 <= i < n && items[i].key == consumer && producer in Targets(items[i])
  }

  lemma {:induction false} AmongStep(items: seq<Product>, n: nat, producer: Key, consumer: Key)
    requires n < |items|
    ensures AmongFirst(items, n + 1, producer, consumer) <==>
              AmongFirst(items, n, producer, consumer) || (items[n].key == consumer && producer in Targets(items[n]))
  {
    hide Targets;
    if AmongFirst(items, n, producer, consumer) {
      var i :| 0 <= i < n && items[i].key == consumer && producer in Targets(items[i]);
      assert 0 <= i < n + 1;
    }
  }

  /** Reverse the declared inputs of a listing. */
  method ReverseInputs(items: seq<Product>, ghost s: Store) returns (index: map<Key, seq<Key>>)
    requires Lists(items, s) && WellKeyed(s)
    ensures forall producer, consumer {:trigger Indexed(index, producer, consumer)} ::
              Indexed(index, producer, consumer) <==> Consumes(s, consumer, producer)
  {
    index := map[];
    var n := 0;
    while n < |items|
      invariant n <= |items|
      invariant forall producer, consumer {:trigger Indexed(index, producer, consumer)} ::
                  Indexed(index, producer, consumer) <==> AmongFirst(items, n, producer, consumer)
    {
      ghost var before := index;
      index := AddInputs(index, items[n]);
      forall producer, consumer
        ensures Indexed(index, producer, consumer) <==> AmongFirst(items, n + 1, producer, consumer)
      {
        hide Targets, Indexed;
        AmongStep(items, n, producer, consumer);
        assert Indexed(before, producer, consumer) <==> AmongFirst(items, n, producer, consumer);
      }
      n := n + 1;
    }
    forall producer, consumer
      ensures Indexed(index, producer, consumer) <==> Consumes(s, consumer, producer)
    {
      hide Targets, Indexed;
      if Consumes(s, consumer, producer) {
        assert s[consumer] in items && s[consumer].key == consumer;
        var i :| 0 <= i < |items| && items[i] == s[consumer];
        assert AmongFirst(items, n, producer, consumer);
      }
      assert Indexed(index, producer, consumer) <==> AmongFirst(items, n, producer, consumer);
    }
  }

  /** Append one consumer under every producer it selects. */
  method AddInputs(index: map<Key, seq<Key>>, p: Product) returns (next: map<Key, seq<Key>>)
    ensures forall producer, consumer {:trigger Indexed(next, producer, consumer)} ::
              Indexed(next, producer, consumer) <==>
              Indexed(index, producer, consumer) || (consumer == p.key && producer in Targets(p))
  {
    next := index;
    var i := 0;
    while i < |p.inputs|
      invariant i <= |p.inputs|
      invariant forall producer, consumer {:trigger Indexed(next, producer, consumer)} ::
                  Indexed(next, producer, consumer) <==>
                  Indexed(index, producer, consumer) || (consumer == p.key && producer in TargetsUpTo(p, i))
    {
      ghost var before := next;
      var key := Target(p.key, p.inputs[i]);
      next := next[key := (if key in next then next[key] else []) + [p.key]];
      TargetsStep(p, i);
      forall producer, consumer
        ensures Indexed(next, producer, consumer) <==>
                  Indexed(index, producer, consumer) || (consumer == p.key && producer in TargetsUpTo(p, i + 1))
      {
        hide TargetsUpTo;
        assert Indexed(next, producer, consumer) <==>
                 Indexed(before, producer, consumer) || (producer == key && consumer == p.key);
      }
      i := i + 1;
    }
    assert TargetsUpTo(p, |p.inputs|) == Targets(p);
  }

  // ---------------------------------------------------------------- the search

  /** Everything found so far is to be requested, and what is yet to expand was found or is the origin. */
  ghost predicate Sound(s: Store, transitive: bool, origin: Key, queue: seq<Key>, seen: set<Key>)
  {
    && (forall k {:trigger k in seen} :: k in seen ==> Requested(s, transitive, origin, k))
    && (forall k {:trigger k in queue} :: k in queue ==> k == origin || (transitive && k in seen))
  }

  /** Whatever has been found and is no longer queued has had its consumers found. */
  ghost predicate Expanded(s: Store, transitive: bool, origin: Key, queue: seq<Key>, seen: set<Key>)
  {
    forall k, consumer {:trigger Consumes(s, consumer, k)} ::
      (k == origin || (transitive && k in seen)) && k !in queue && Consumes(s, consumer, k) ==> consumer in seen
  }

  lemma {:induction false} StartFound(s: Store, transitive: bool, origin: Key)
    ensures Sound(s, transitive, origin, [origin], {}) && Expanded(s, transitive, origin, [origin], {})
  {
  }

  lemma {:induction false} RequestedStep(s: Store, transitive: bool, origin: Key, k: Key, consumer: Key)
    requires WellKeyed(s) && Consumes(s, consumer, k)
    requires k == origin || (transitive && Requested(s, transitive, origin, k))
    ensures Requested(s, transitive, origin, consumer)
  {
    hide Targets;
    if transitive {
      assert k in Succ(Adjacency(s), consumer);
      if k == origin {
        assert Walk(Adjacency(s), k, origin, 0);
        assert Walk(Adjacency(s), consumer, origin, 1);
      } else {
        var n: nat :| n > 0 && Walk(Adjacency(s), k, origin, n);
        assert Walk(Adjacency(s), consumer, origin, n + 1);
      }
    }
  }

  /** Once the queue is empty every requested consumer has been found. */
  lemma {:induction false} AllFound(s: Store, origin: Key, seen: set<Key>, consumer: Key, n: nat)
    requires Expanded(s, true, origin, [], seen) && n > 0 && Walk(Adjacency(s), consumer, origin, n)
    ensures consumer in seen
    decreases n
  {
    hide Targets;
    var m :| m in Succ(Adjacency(s), consumer) && Walk(Adjacency(s), m, origin, n - 1);
    if n > 1 {
      AllFound(s, origin, seen, m, n - 1);
    }
    assert Consumes(s, consumer, m);
  }

  lemma {:induction false} Complete(s: Store, transitive: bool, origin: Key, seen: set<Key>)
    requires Expanded(s, transitive, origin, [], seen) && Sound(s, transitive, origin, [], seen)
    ensures seen == Requests(s, transitive, origin)
  {
    forall k | k in Requests(s, transitive, origin)
      ensures k in seen
    {
      if transitive {
        var n: nat :| n > 0 && Walk(Adjacency(s), k, origin, n);
        AllFound(s, origin, seen, k, n);
      } else {
        assert Consumes(s, k, origin);
      }
    }
    forall k | k in seen
      ensures k in Requests(s, transitive, origin)
    {
    }
  }

  /**
   Exactly the consumers an event about the origin must wake, each once, in the order of their names; none of them
   when the products cannot be listed.
   */
  method RequestsForDependency(listing: Option<seq<Product>>, ghost s: Store, origin: Key, transitive: bool)
    returns (requests: seq<Key>)
    requires WellKeyed(s) && (listing.Some? ==> Lists(listing.value, s))
    ensures listing.Some? ==> forall k :: k in requests <==> k in Requests(s, transitive, origin)
    ensures listing.None? ==> requests == []
    ensures forall i, j :: 0 <= i < j < |requests| ==> requests[i] != requests[j]
    ensures Order.SortedBy(requests, RequestText)
  {
    if listing.None? {
      return [];
    }
    StartFound(s, transitive, origin);
    hide Lists, WellKeyed, Indexed, Consumes, Requested, Sound, Expanded, Requests, Order.SortedBy, Order.Sort,
         RequestText;
    var index := ReverseInputs(listing.value, s);
    var queue, seen, found := [origin], {}, [];
    while queue != []
      invariant Sound(s, transitive, origin, queue, seen) && Expanded(s, transitive, origin, queue, seen)
      invariant forall k :: k in found <==> k in seen
      invariant forall i, j :: 0 <= i < j < |found| ==> found[i] != found[j]
      invariant seen <= s.Keys
      decreases |s.Keys - seen|, |queue|
    {
      var key := queue[0];
      ghost var before := seen;
      assert [key] + queue[1..] == queue;
      queue, seen, found := Expand(index, s, origin, transitive, key, queue[1..], seen, found);
      Shrinks(s.Keys, before, seen);
    }
    Complete(s, transitive, origin, seen);
    requests := Order.Sort(found, RequestText);
    Order.SortSorts(found, RequestText);
    SortedDistinct(found, requests);
  }

  /** Finding another key leaves fewer to be found. */
  lemma {:induction false} Shrinks(all: set<Key>, before: set<Key>, seen: set<Key>)
    requires before <= seen <= all
    ensures seen == before || |all - seen| < |all - before|
  {
    if seen - before != {} {
      var found :| found in seen - before;
      SubsetCount((all - seen) + {found}, all - before);
    } else {
      assert seen == before;
    }
  }

  /** Find the consumers of one key. */
  method Expand(index: map<Key, seq<Key>>, ghost s: Store, ghost origin: Key, transitive: bool, key: Key,
                rest: seq<Key>, known: set<Key>, found: seq<Key>)
    returns (queue: seq<Key>, seen: set<Key>, requests: seq<Key>)
    requires WellKeyed(s)
    requires forall producer, consumer {:trigger Indexed(index, producer, consumer)} ::
               Indexed(index, producer, consumer) <==> Consumes(s, consumer, producer)
    requires Sound(s, transitive, origin, [key] + rest, known) && Expanded(s, transitive, origin, [key] + rest, known)
    requires forall k :: k in found <==> k in known
    requires forall i, j :: 0 <= i < j < |found| ==> found[i] != found[j]
    requires known <= s.Keys
    ensures Sound(s, transitive, origin, queue, seen) && Expanded(s, transitive, origin, queue, seen)
    ensures forall k :: k in requests <==> k in seen
    ensures forall i, j :: 0 <= i < j < |requests| ==> requests[i] != requests[j]
    ensures known <= seen <= s.Keys
    ensures seen == known ==> queue == rest
  {
    hide Requested, Targets;
    queue, seen, requests := rest, known, found;
    var consumers := if key in index then index[key] else [];
    var i := 0;
    while i < |consumers|
      invariant i <= |consumers|
      invariant Sound(s, transitive, origin, [key] + queue, seen)
      invariant Expanded(s, transitive, origin, [key] + queue, seen)
      invariant forall j :: 0 <= j < i ==> consumers[j] in seen
      invariant forall k :: k in requests <==> k in seen
      invariant forall i, j :: 0 <= i < j < |requests| ==> requests[i] != requests[j]
      invariant known <= seen <= s.Keys
      invariant seen == known ==> queue == rest
    {
      var consumer := consumers[i];
      if consumer !in seen {
        ghost var before, pending := seen, queue;
        assert Indexed(index, key, consumer) && Consumes(s, consumer, key);
        assert key in [key] + queue;
        RequestedStep(s, transitive, origin, key, consumer);
        seen := seen + {consumer};
        requests := requests + [consumer];
        if transitive {
          queue := queue + [consumer];
        }
        FoundKeeps(s, transitive, origin, key, pending, queue, before, seen, consumer);
      }
      i := i + 1;
    }
    Expands(index, s, transitive, origin, key, consumers, queue, seen);
  }

  lemma {:induction false} FoundKeeps(s: Store, transitive: bool, origin: Key, key: Key, pending: seq<Key>,
                                      queue: seq<Key>,
                   before: set<Key>, seen: set<Key>, consumer: Key)
    requires Sound(s, transitive, origin, [key] + pending, before)
    requires Expanded(s, transitive, origin, [key] + pending, before)
    requires Requested(s, transitive, origin, consumer)
    requires seen == before + {consumer} && queue == if transitive then pending + [consumer] else pending
    ensures Sound(s, transitive, origin, [key] + queue, seen)
    ensures Expanded(s, transitive, origin, [key] + queue, seen)
  {
    hide Requested, Consumes;
    assert forall k :: k in [key] + pending ==> k in [key] + queue;
    assert transitive ==> consumer in [key] + queue;
    assert forall k :: k in [key] + queue ==> k in [key] + pending || (transitive && k == consumer);
  }

  lemma {:induction false} Expands(index: map<Key, seq<Key>>, s: Store, transitive: bool, origin: Key, key: Key,
                                   consumers: seq<Key>,
                queue: seq<Key>, seen: set<Key>)
    requires forall producer, consumer {:trigger Indexed(index, producer, consumer)} ::
               Indexed(index, producer, consumer) <==> Consumes(s, consumer, producer)
    requires Sound(s, transitive, origin, [key] + queue, seen)
    requires Expanded(s, transitive, origin, [key] + queue, seen)
    requires consumers == if key in index then index[key] else []
    requires forall j :: 0 <= j < |consumers| ==> consumers[j] in seen
    ensures Sound(s, transitive, origin, queue, seen) && Expanded(s, transitive, origin, queue, seen)
  {
    hide Requested, Consumes;
    assert forall k :: k in queue ==> k in [key] + queue;
    forall k, consumer | (k == origin || (transitive && k in seen)) && k !in queue && Consumes(s, consumer, k)
      ensures consumer in seen
    {
      if k == key {
        assert Indexed(index, key, consumer);
      } else {
        assert k !in [key] + queue;
      }
    }
  }

  /** Sorting keeps the elements and their distinctness. */
  lemma {:induction false} SortedDistinct(found: seq<Key>, sorted: seq<Key>)
    requires multiset(sorted) == multiset(found)
    requires forall i, j :: 0 <= i < j < |found| ==> found[i] != found[j]
    ensures forall k :: k in sorted <==> k in found
    ensures forall i, j :: 0 <= i < j < |sorted| ==> sorted[i] != sorted[j]
  {
    forall k
      ensures k in sorted <==> k in found
    {
      Order.PermutationMember(sorted, found, k);
    }
    Order.PermutationDistinct(found, sorted, (k: Key) => k);
  }
}
