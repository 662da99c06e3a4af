/** Lexicographic order of texts, and sorting by a textual sort key. */
module Order {

  predicate TextLeq(a: string, b: string)
  {
    if a == "" then true
    else if b == "" then false
    else if a[0] == b[0] then TextLeq(a[1..], b[1..])
    else a[0] < b[0]
  }

  lemma {:induction false} TextTotal(a: string, b: string)
    ensures TextLeq(a, b) || TextLeq(b, a)
    ensures TextLeq(a, b) && TextLeq(b, a) ==> a == b
    decreases |a|
  {
    if a != "" && b != "" && a[0] == b[0] {
      TextTotal(a[1..], b[1..]);
      assert a == [a[0]] + a[1..] && b == [b[0]] + b[1..];
    }
  }

  lemma {:induction false} TextTransitive(a: string, b: string, c: string)
    requires TextLeq(a, b) && TextLeq(b, c)
    ensures TextLeq(a, c)
    decreases |a|
  {
    if a != "" && a[0] == b[0] && b[0] == c[0] {
      TextTransitive(a[1..], b[1..], c[1..]);
    }
  }

  /** The sort key of a text that is sorted by itself. */
  function Self(s: string): seq<string>
  {
    [s]
  }

  /** Sort keys are compared field by field. */
  predicate KeyLeq(a: seq<string>, b: seq<string>)
  {
    if a == [] then true
    else if b == [] then false
    else if a[0] == b[0] then KeyLeq(a[1..], b[1..])
    else TextLeq(a[0], b[0])
  }

  lemma {:induction false} KeyTotal(a: seq<string>, b: seq<string>)
    ensures KeyLeq(a, b) || KeyLeq(b, a)
    ensures KeyLeq(a, b) && KeyLeq(b, a) ==> a == b
    decreases |a|
  {
    if a != [] && b != [] {
      if a[0] == b[0] {
        KeyTotal(a[1..], b[1..]);
        assert a == [a[0]] + a[1..] && b == [b[0]] + b[1..];
      } else {
        TextTotal(a[0], b[0]);
      }
    }
  }

  lemma {:induction false} KeyTransitive(a: seq<string>, b: seq<string>, c: seq<string>)
    requires KeyLeq(a, b) && KeyLeq(b, c)
    ensures KeyLeq(a, c)
    decreases |a|
  {
    if a != [] {
      if a[0] == b[0] && b[0] == c[0] {
        KeyTransitive(a[1..], b[1..], c[1..]);
      } else if a[0] != b[0] && b[0] != c[0] {
        TextTransitive(a[0], b[0], c[0]);
        TextTotal(a[0], b[0]);
      }
    }
  }

  ghost predicate SortedBy<T>(s: seq<T>, key: T -> seq<string>)
  {
    forall i, j :: 0 <= i <= j < |s| ==> KeyLeq(key(s[i]), key(s[j]))
  }

  function Insert<T>(x: T, s: seq<T>, key: T -> seq<string>): (r: seq<T>)
    ensures multiset(r) == multiset([x] + s)
  {
    if s == [] then [x]
    else if KeyLeq(key(x), key(s[0])) then [x] + s
    else
      var rest := Insert(x, s[1..], key);
      assert s == [s[0]] + s[1..];
      assert multiset([s[0]] + rest) == multiset([s[0]]) + multiset([x] + s[1..]);
      [s[0]] + rest
  }

  function Sort<T>(s: seq<T>, key: T -> seq<string>): (r: seq<T>)
    ensures multiset(r) == multiset(s)
  {
    if s == [] then []
    else
      var rest := Sort(s[1..], key);
      assert s == [s[0]] + s[1..];
      Insert(s[0], rest, key)
  }

  lemma {:induction false} ConsSorted<T>(x: T, s: seq<T>, key: T -> seq<string>)
    requires SortedBy(s, key)
    requires forall y :: y in s ==> KeyLeq(key(x), key(y))
    ensures SortedBy([x] + s, key)
  {
    hide KeyLeq;
    var r := [x] + s;
    KeyTotal(key(x), key(x));
    forall i, j | 0 <= i <= j < |r|
      ensures KeyLeq(key(r[i]), key(r[j]))
    {
      if i == 0 && j > 0 {
        assert r[j] == s[j - 1];
      } else if i > 0 {
        assert r[i] == s[i - 1] && r[j] == s[j - 1];
      }
    }
  }

  lemma {:induction false} InsertSorted<T>(x: T, s: seq<T>, key: T -> seq<string>)
    requires SortedBy(s, key)
    ensures SortedBy(Insert(x, s, key), key)
    decreases |s|
  {
    hide KeyLeq;
    if s == [] {
      KeyTotal(key(x), key(x));
    } else if KeyLeq(key(x), key(s[0])) {
      forall y | y in s
        ensures KeyLeq(key(x), key(y))
      {
        KeyTransitive(key(x), key(s[0]), key(y));
      }
      ConsSorted(x, s, key);
    } else {
      KeyTotal(key(x), key(s[0]));
      var tail := s[1..];
      var rest := Insert(x, tail, key);
      InsertSorted(x, tail, key);
      forall y | y in rest
        ensures KeyLeq(key(s[0]), key(y))
      {
        assert y in multiset(rest) && y in multiset([x] + tail);
        if y != x {
          var i :| 0 <= i < |tail| && tail[i] == y;
          assert s[i + 1] == y;
        }
      }
      ConsSorted(s[0], rest, key);
    }
  }

  lemma {:induction false} SortSorts<T>(s: seq<T>, key: T -> seq<string>)
    ensures SortedBy(Sort(s, key), key)
    decreases |s|
  {
    if s != [] {
      SortSorts(s[1..], key);
      InsertSorted(s[0], Sort(s[1..], key), key);
    }
  }

  lemma {:induction false} SameFirst<T>(a: seq<T>, b: seq<T>, key: T -> seq<string>)
    requires SortedBy(a, key) && SortedBy(b, key) && multiset(a) == multiset(b)
    requires forall x, y :: x in a && y in a && key(x) == key(y) ==> x == y
    requires a != [] && b != []
    ensures a[0] == b[0]
  {
    assert a[0] in multiset(a) && b[0] in multiset(b);
    var i :| 0 <= i < |b| && b[i] == a[0];
    var j :| 0 <= j < |a| && a[j] == b[0];
    KeyTotal(key(a[0]), key(b[0]));
  }

  /** Two sorted arrangements of the same distinct sort keys are the same sequence. */
  lemma {:induction false} SortedUnique<T>(a: seq<T>, b: seq<T>, key: T -> seq<string>)
    requires SortedBy(a, key) && SortedBy(b, key) && multiset(a) == multiset(b)
    requires forall x, y :: x in a && y in a && key(x) == key(y) ==> x == y
    ensures a == b
    decreases |a|
  {
    assert |multiset(a)| == |a| && |multiset(b)| == |b|;
    if a != [] {
      SameFirst(a, b, key);
      var restA, restB := a[1..], b[1..];
      assert a == [a[0]] + restA && b == [a[0]] + restB;
      RestSorted(a, restA, key);
      RestSorted(b, restB, key);
      hide *;
      SameRest(a[0], restA, restB, a, b);
      assert forall x :: x in restA ==> x in a;
      SortedUnique(restA, restB, key);
    }
  }

  lemma {:induction false} RestSorted<T>(s: seq<T>, rest: seq<T>, key: T -> seq<string>)
    requires SortedBy(s, key) && s != [] && rest == s[1..]
    ensures SortedBy(rest, key)
  {
    hide KeyLeq;
  }

  lemma {:induction false} SameRest<T>(x: T, restA: seq<T>, restB: seq<T>, a: seq<T>, b: seq<T>)
    requires a == [x] + restA && b == [x] + restB && multiset(a) == multiset(b)
    ensures multiset(restA) == multiset(restB)
  {
    assert multiset(restA) == multiset(a) - multiset{x};
    assert multiset(restB) == multiset(b) - multiset{x};
  }

  // ---------------------------------------------------------------- distinctness

  ghost predicate DistinctBy<T, K>(s: seq<T>, key: T -> K)
  {
    forall i, j :: 0 <= i < j < |s| ==> key(s[i]) != key(s[j])
  }

  lemma {:induction false} DistinctOnce<T, K>(s: seq<T>, key: T -> K)
    requires DistinctBy(s, key)
    ensures forall x :: multiset(s)[x] <= 1
    decreases |s|
  {
    if s != [] {
      var front, last := s[..|s| - 1], s[|s| - 1];
      DistinctOnce(front, key);
      assert s == front + [last];
      assert last !in front;
    }
  }

  lemma {:induction false} Twice<T>(s: seq<T>, i: nat, j: nat)
    requires i < j < |s| && s[i] == s[j]
    ensures multiset(s)[s[i]] >= 2
  {
    assert s == s[..j] + [s[j]] + s[j + 1..];
    assert s[i] in s[..j];
  }

  lemma {:induction false} PermutationMember<T>(a: seq<T>, b: seq<T>, x: T)
    requires multiset(a) == multiset(b)
    ensures x in a <==> x in b
  {
    assert x in multiset(a) <==> x in multiset(b);
  }

  /** Rearranging a sequence keeps its sort keys distinct. */
  lemma {:induction false} PermutationDistinct<T, K>(a: seq<T>, b: seq<T>, key: T -> K)
    requires multiset(a) == multiset(b) && DistinctBy(a, key)
    ensures DistinctBy(b, key)
  {
    DistinctOnce(a, key);
    forall i, j | 0 <= i < j < |b|
      ensures key(b[i]) != key(b[j])
    {
      if key(b[i]) == key(b[j]) {
        PermutationMember(a, b, b[i]);
        PermutationMember(a, b, b[j]);
        var m :| 0 <= m < |a| && a[m] == b[i];
        var n :| 0 <= n < |a| && a[n] == b[j];
        assert m == n;
        Twice(b, i, j);
      }
    }
  }
}
