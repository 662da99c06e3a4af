/** Sums of natural weights over finite sets of keys. */
module Sums {

  ghost function Total<K>(w: map<K, nat>, s: set<K>): nat
    requires s <= w.Keys
    decreases |s|
  {
    if s == {} then 0 else var k :| k in s; w[k] + Total(w, s - {k})
  }

  lemma {:induction false} Remove<K>(w: map<K, nat>, s: set<K>, k: K)
    requires s <= w.Keys && k in s
    ensures Total(w, s) == w[k] + Total(w, s - {k})
    decreases |s|
  {
    var x :| x in s && Total(w, s) == w[x] + Total(w, s - {x});
    if x != k {
      Remove(w, s - {x}, k);
      Remove(w, s - {k}, x);
      assert s - {x} - {k} == s - {k} - {x};
    }
  }

  lemma {:induction false} Add<K>(w: map<K, nat>, s: set<K>, k: K)
    requires s <= w.Keys && k in w && k !in s
    ensures Total(w, s + {k}) == w[k] + Total(w, s)
  {
    Remove(w, s + {k}, k);
    assert s + {k} - {k} == s;
  }

  lemma {:induction false} Grows<K>(w: map<K, nat>, s: set<K>, t: set<K>)
    requires s <= t <= w.Keys
    ensures Total(w, s) <= Total(w, t)
    decreases |t - s|
  {
    if t - s == {} {
      assert s == t;
    } else {
      var k :| k in t - s;
      Remove(w, t, k);
      Grows(w, s, t - {k});
    }
  }

  /** The sum only looks at the weights of the keys in the set. */
  lemma {:induction false} Agree<K>(w: map<K, nat>, v: map<K, nat>, s: set<K>)
    requires s <= w.Keys && s <= v.Keys
    requires forall k :: k in s ==> w[k] == v[k]
    ensures Total(w, s) == Total(v, s)
    decreases |s|
  {
    if s != {} {
      var k :| k in s;
      Remove(w, s, k);
      Remove(v, s, k);
      Agree(w, v, s - {k});
    }
  }

  lemma {:induction false} Disjoint<K>(w: map<K, nat>, s: set<K>, t: set<K>)
    requires s !! t && s + t <= w.Keys
    ensures Total(w, s + t) == Total(w, s) + Total(w, t)
    decreases |t|
  {
    if t == {} {
      assert s + t == s;
    } else {
      var k :| k in t;
      Remove(w, t, k);
      Remove(w, s + t, k);
      assert s + t - {k} == s + (t - {k});
      Disjoint(w, s, t - {k});
    }
  }
}
