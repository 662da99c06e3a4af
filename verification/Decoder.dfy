/** The recursive scanner of the report reader, and its agreement with the flat one. */
module Decoder {
  import opened Products
  import opened Numbers
  import opened Json
  import FlatScan

  const MAX_DEPTH := 64
  const MAX_KEYS := 32
  const MAX_ITEMS := 1024

  type Rest = Option<seq<Token>>

  /** Only plain integers: the cursor stops before a point or an exponent, where nothing may follow. */
  predicate Plain(n: Number)
  {
    n.fraction == [] && n.exponent == []
  }

  /** What follows a value scanned at this depth; None refuses the document. */
  function Value(ts: seq<Token>, depth: nat): (rest: Rest)
    ensures rest.Some? ==> |rest.value| < |ts|
    decreases |ts|, 1
  {
    if depth > MAX_DEPTH || ts == [] then None
    else
      match ts[0]
      case TextToken(s) => if WellFormed(s) then Some(ts[1..]) else None
      case WordToken => Some(ts[1..])
      case NumberToken(n) => if Plain(n) then Some(ts[1..]) else None
      case OpenArray =>
        if |ts| > 1 && ts[1] == CloseArray then Some(ts[2..]) else Elements(ts[1..], depth, 0)
      case OpenObject =>
        if |ts| > 1 && ts[1] == CloseObject then Some(ts[2..]) else Fields(ts[1..], depth, {})
      case _ => None
  }

  /** The loop over array items, after `count` of them. */
  function Elements(ts: seq<Token>, depth: nat, count: nat): (rest: Rest)
    ensures rest.Some? ==> |rest.value| < |ts|
    decreases |ts|, 2
  {
    if count + 1 > MAX_ITEMS then None
    else
      match Value(ts, depth + 1)
      case None => None
      case Some(after) =>
        if after == [] then None
        else if after[0] == CloseArray then Some(after[1..])
        else if after[0] == Comma then Elements(after[1..], depth, count + 1)
        else None
  }

  /** The loop over object members, after these keys. */
  function Fields(ts: seq<Token>, depth: nat, keys: set<Str>): (rest: Rest)
    ensures rest.Some? ==> |rest.value| < |ts|
    decreases |ts|, 2
  {
    if |ts| < 2 || !ts[0].TextToken? || !WellFormed(ts[0].text) || ts[0].text in keys then None
    else if |keys + {ts[0].text}| > MAX_KEYS || ts[1] != Colon then None
    else
      match Value(ts[2..], depth + 1)
      case None => None
      case Some(after) =>
        if after == [] then None
        else if after[0] == CloseObject then Some(after[1..])
        else if after[0] == Comma then Fields(after[1..], depth, keys + {ts[0].text})
        else None
  }

  /** The whole document: one value and nothing after it. */
  predicate Accepts(ts: seq<Token>)
  {
    Value(ts, 0) == Some([])
  }

  /** The cursor of the scanner; every method leaves it where the specification says. */
  class Cursor {
    const ts: seq<Token>
    var at: nat

    constructor (ts: seq<Token>)
      ensures this.ts == ts && at == 0
    {
      this.ts, at := ts, 0;
    }

    ghost predicate Follows(rest: Rest, ok: bool)
      requires at <= |ts|
      reads this
    {
      (ok <==> rest.Some?) && (ok ==> rest == Some(ts[at..]))
    }

    method ReadValue(depth: nat) returns (ok: bool)
      requires at <= |ts|
      modifies this
      ensures old(at) <= at <= |ts| && Follows(Value(ts[old(at)..], depth), ok) && (ok ==> old(at) < at)
      decreases |ts| - at, 1
    {
      if depth > MAX_DEPTH || at == |ts| {
        return false;
      }
      var token := ts[at];
      ghost var here := ts[at..];
      assert here[0] == token && here[1..] == ts[at + 1..];
      match token
      case TextToken(s) =>
        at := at + 1;
        ok := WellFormed(s);
      case WordToken =>
        at := at + 1;
        ok := true;
      case NumberToken(n) =>
        at := at + 1;
        ok := Plain(n);
      case OpenArray =>
        at := at + 1;
        if at < |ts| && ts[at] == CloseArray {
          at := at + 1;
          assert here[2..] == ts[at..];
          return true;
        }
        ok := ReadElements(depth);
      case OpenObject =>
        at := at + 1;
        if at < |ts| && ts[at] == CloseObject {
          at := at + 1;
          assert here[2..] == ts[at..];
          return true;
        }
        ok := ReadFields(depth);
      case _ =>
        ok := false;
    }

    method ReadElements(depth: nat) returns (ok: bool)
      requires at <= |ts|
      modifies this
      ensures old(at) <= at <= |ts| && Follows(Elements(ts[old(at)..], depth, 0), ok)
      decreases |ts| - at, 2
    {
      var count := 0;
      while true
        invariant old(at) <= at <= |ts|
        invariant Elements(ts[old(at)..], depth, 0) == Elements(ts[at..], depth, count)
        decreases |ts| - at
      {
        count := count + 1;
        if count > MAX_ITEMS {
          return false;
        }
        var read := ReadValue(depth + 1);
        if !read || at == |ts| {
          return false;
        }
        assert ts[at..][0] == ts[at] && ts[at..][1..] == ts[at + 1..];
        if ts[at] == CloseArray {
          at := at + 1;
          return true;
        }
        if ts[at] != Comma {
          return false;
        }
        at := at + 1;
      }
    }

    method ReadFields(depth: nat) returns (ok: bool)
      requires at <= |ts|
      modifies this
      ensures old(at) <= at <= |ts| && Follows(Fields(ts[old(at)..], depth, {}), ok)
      decreases |ts| - at, 2
    {
      hide WellFormed, Value, Elements, Fields;
      var keys: set<Str> := {};
      while true
        invariant old(at) <= at <= |ts|
        invariant Fields(ts[old(at)..], depth, {}) == Fields(ts[at..], depth, keys)
        decreases |ts| - at
      {
        ghost var here := ts[at..];
        FieldRefused(here, depth, keys);
        if |ts| - at < 2 || !ts[at].TextToken? || !WellFormed(ts[at].text) || ts[at].text in keys {
          return false;
        }
        assert here[0] == ts[at] && here[1] == ts[at + 1] && here[2..] == ts[at + 2..];
        if ts[at + 1] == Colon {
          FieldStep(here, depth, keys);
        }
        keys := keys + {ts[at].text};
        if |keys| > MAX_KEYS || ts[at + 1] != Colon {
          return false;
        }
        at := at + 2;
        var read := ReadValue(depth + 1);
        if !read || at == |ts| {
          return false;
        }
        assert ts[at..][0] == ts[at] && ts[at..][1..] == ts[at + 1..];
        if ts[at] == CloseObject {
          at := at + 1;
          return true;
        }
        if ts[at] != Comma {
          return false;
        }
        at := at + 1;
      }
    }
  }

  method Decode(ts: seq<Token>) returns (ok: bool)
    ensures ok <==> Accepts(ts)
  {
    var cursor := new Cursor(ts);
    assert ts[0..] == ts;
    ok := cursor.ReadValue(0);
    ok := ok && cursor.at == |ts|;
  }

  // ---------------------------------------------------------------- values

  /** The limits of this reader other than repeated keys. */
  ghost predicate Limited(j: Json, depth: nat)
    decreases j
  {
    depth <= MAX_DEPTH &&
    match j
    case Word => true
    case Num(n) => Plain(n)
    case Text(s) => WellFormed(s)
    case Array(items) => |items| <= MAX_ITEMS && forall i :: 0 <= i < |items| ==> Limited(items[i], depth + 1)
    case Object(members) =>
      |members| <= MAX_KEYS &&
      forall i :: 0 <= i < |members| ==> WellFormed(members[i].key) && Limited(members[i].value, depth + 1)
  }

  /** Read at this depth without a complaint. */
  ghost predicate Good(j: Json, depth: nat)
  {
    Limited(j, depth) && KeysDistinct(j)
  }

  function After(ok: bool, rest: seq<Token>): Rest
  {
    if ok then Some(rest) else None
  }

  /** No value starts with a closing token or a separator. */
  lemma {:induction false} StartsValue(j: Json)
    ensures Tokens(j) != [] && Tokens(j)[0] !in {CloseArray, CloseObject, Comma, Colon}
  {
  }

  ghost predicate AllGood(items: seq<Json>, depth: nat)
  {
    forall i {:trigger items[i]} :: 0 <= i < |items| ==> Good(items[i], depth)
  }

  ghost predicate FieldsGood(members: seq<Member>, keys: set<Str>, depth: nat)
  {
    && (forall i {:trigger members[i]} :: 0 <= i < |members| ==>
          WellFormed(members[i].key) && members[i].key !in keys && Good(members[i].value, depth))
    && DistinctMembers(members)
  }

  /** Scanning the tokens of a value consumes exactly them, or refuses the document. */
  lemma {:induction false} ValueReads(j: Json, rest: seq<Token>, depth: nat)
    ensures Value(Tokens(j) + rest, depth) == After(Good(j, depth), rest)
    decreases j, 1
  {
    var ts := Tokens(j) + rest;
    match j
    case Word =>
      assert ts[0] == WordToken && ts[1..] == rest;
    case Num(n) =>
      assert ts[0] == NumberToken(n) && ts[1..] == rest;
    case Text(s) =>
      assert ts[0] == TextToken(s) && ts[1..] == rest;
    case Array(items) =>
      ArrayReads(items, rest, depth);
    case Object(members) =>
      ObjectReads(members, rest, depth);
  }

  lemma {:induction false} ArrayReads(items: seq<Json>, rest: seq<Token>, depth: nat)
    ensures Value(Tokens(Array(items)) + rest, depth) == After(Good(Array(items), depth), rest)
    decreases Array(items), 0
  {
    var ts := Tokens(Array(items)) + rest;
    var inner := ItemTokens(items, true) + [CloseArray] + rest;
    assert ts[0] == OpenArray && ts[1..] == inner;
    hide Limited, KeysDistinct;
    ArrayGood(items, depth);
    if items == [] {
      assert ItemTokens(items, true) == [] && inner == [CloseArray] + rest;
      assert ts[1] == CloseArray && ts[2..] == rest;
    } else {
      StartsValue(items[0]);
      assert inner[0] == Tokens(items[0])[0];
      if depth <= MAX_DEPTH {
        ElementsRead(items, rest, depth, 0);
      }
    }
  }

  lemma {:induction false} ArrayGood(items: seq<Json>, depth: nat)
    ensures Good(Array(items), depth) <==> depth <= MAX_DEPTH && |items| <= MAX_ITEMS && AllGood(items, depth + 1)
  {
    if Good(Array(items), depth) {
      forall i {:trigger items[i]} | 0 <= i < |items|
        ensures Good(items[i], depth + 1)
      {
      }
    }
    if depth <= MAX_DEPTH && |items| <= MAX_ITEMS && AllGood(items, depth + 1) {
      forall i | 0 <= i < |items|
        ensures Limited(items[i], depth + 1) && KeysDistinct(items[i])
      {
        assert Good(items[i], depth + 1);
      }
    }
  }

  lemma {:induction false} ElementsRead(items: seq<Json>, rest: seq<Token>, depth: nat, count: nat)
    requires items != []
    ensures Elements(ItemTokens(items, true) + [CloseArray] + rest, depth, count) ==
            After(count + |items| <= MAX_ITEMS && AllGood(items, depth + 1), rest)
    decreases items
  {
    var tail := items[1..];
    var more := ItemTokens(tail, false) + [CloseArray] + rest;
    var ts := ItemTokens(items, true) + [CloseArray] + rest;
    FirstItemTokens(items, rest);
    ValueReads(items[0], more, depth + 1);
    ElementStep(ts, depth, count);
    hide Tokens, ItemTokens, Value, Elements, Good, AllGood;
    ItemsSplit(items, depth + 1);
    if count + 1 <= MAX_ITEMS && Good(items[0], depth + 1) {
      if tail == [] {
        NoMoreItems(rest, depth + 1);
      } else {
        MoreItemTokens(tail, rest);
        ElementsRead(tail, rest, depth, count + 1);
      }
    }
  }

  /** The tokens of a nonempty list of items, up to the second item. */
  lemma {:induction false} FirstItemTokens(items: seq<Json>, rest: seq<Token>)
    requires items != []
    ensures ItemTokens(items, true) + [CloseArray] + rest ==
            Tokens(items[0]) + (ItemTokens(items[1..], false) + [CloseArray] + rest)
  {
    hide Tokens;
  }

  lemma {:induction false} MoreItemTokens(tail: seq<Json>, rest: seq<Token>)
    requires tail != []
    ensures var more := ItemTokens(tail, false) + [CloseArray] + rest;
            more != [] && more[0] == Comma && more[1..] == ItemTokens(tail, true) + [CloseArray] + rest
  {
    CommaFirst(tail);
    hide ItemTokens;
    var next := ItemTokens(tail, true) + [CloseArray] + rest;
    assert ItemTokens(tail, false) + [CloseArray] + rest == [Comma] + next;
  }

  lemma {:induction false} NoMoreItems(rest: seq<Token>, depth: nat)
    ensures var more := ItemTokens([], false) + [CloseArray] + rest;
            more != [] && more[0] == CloseArray && more[1..] == rest
    ensures AllGood([], depth)
  {
    assert ItemTokens([], false) + [CloseArray] + rest == [CloseArray] + rest;
  }

  /** One round of the loop over elements. */
  lemma {:induction false} ElementStep(ts: seq<Token>, depth: nat, count: nat)
    ensures Elements(ts, depth, count) ==
            if count + 1 > MAX_ITEMS then None
            else match Value(ts, depth + 1)
                 case None => None
                 case Some(after) =>
                   if after == [] then None
                   else if after[0] == CloseArray then Some(after[1..])
                   else if after[0] == Comma then Elements(after[1..], depth, count + 1)
                   else None
  {
    hide Value;
  }

  lemma {:induction false} CommaFirst(items: seq<Json>)
    requires items != []
    ensures ItemTokens(items, false) == [Comma] + ItemTokens(items, true)
  {
  }

  lemma {:induction false} ItemsSplit(items: seq<Json>, depth: nat)
    requires items != []
    ensures AllGood(items, depth) <==> Good(items[0], depth) && AllGood(items[1..], depth)
  {
    hide Good;
    var tail := items[1..];
    assert forall i {:trigger tail[i]} :: 0 <= i < |tail| ==> tail[i] == items[i + 1];
    assert forall i {:trigger items[i]} :: 1 <= i < |items| ==> items[i] == tail[i - 1];
  }

  lemma {:induction false} ObjectReads(members: seq<Member>, rest: seq<Token>, depth: nat)
    ensures Value(Tokens(Object(members)) + rest, depth) == After(Good(Object(members), depth), rest)
    decreases Object(members), 0
  {
    var ts := Tokens(Object(members)) + rest;
    var inner := MemberTokens(members, true) + [CloseObject] + rest;
    assert ts[0] == OpenObject && ts[1..] == inner;
    hide Limited, KeysDistinct;
    ObjectGood(members, depth);
    if members == [] {
      assert MemberTokens(members, true) == [] && inner == [CloseObject] + rest;
      assert ts[1] == CloseObject && ts[2..] == rest;
    } else {
      assert inner[0] == TextToken(members[0].key);
      if depth <= MAX_DEPTH {
        FieldsRead(members, rest, depth, {});
      }
    }
  }

  lemma {:induction false} ObjectGood(members: seq<Member>, depth: nat)
    ensures Good(Object(members), depth) <==>
            depth <= MAX_DEPTH && |members| <= MAX_KEYS && FieldsGood(members, {}, depth + 1)
  {
    hide WellFormed;
    if Good(Object(members), depth) {
      forall i {:trigger members[i]} | 0 <= i < |members|
        ensures WellFormed(members[i].key) && Good(members[i].value, depth + 1)
      {
      }
    }
    if depth <= MAX_DEPTH && |members| <= MAX_KEYS && FieldsGood(members, {}, depth + 1) {
      forall i | 0 <= i < |members|
        ensures WellFormed(members[i].key) && Limited(members[i].value, depth + 1) && KeysDistinct(members[i].value)
      {
        assert Good(members[i].value, depth + 1);
      }
    }
  }

  lemma {:induction false} FieldsRead(members: seq<Member>, rest: seq<Token>, depth: nat, keys: set<Str>)
    requires members != []
    ensures Fields(MemberTokens(members, true) + [CloseObject] + rest, depth, keys) ==
            After(|keys| + |members| <= MAX_KEYS && FieldsGood(members, keys, depth + 1), rest)
    decreases members
  {
    var m, tail := members[0], members[1..];
    var more := MemberTokens(tail, false) + [CloseObject] + rest;
    var ts := MemberTokens(members, true) + [CloseObject] + rest;
    FieldTokens(members, rest);
    ValueReads(m.value, more, depth + 1);
    FieldStep(ts, depth, keys);
    hide Tokens, MemberTokens, Value, Fields, Good, WellFormed, FieldsGood;
    FieldsSplit(members, keys, depth + 1);
    if WellFormed(m.key) && m.key !in keys && |keys| + 1 <= MAX_KEYS && Good(m.value, depth + 1) {
      if tail == [] {
        NoMoreFields(rest, keys + {m.key}, depth + 1);
      } else {
        MoreFieldTokens(tail, rest);
        FieldsRead(tail, rest, depth, keys + {m.key});
      }
    }
  }

  /** The tokens of a nonempty list of members, up to the second member. */
  lemma {:induction false} FieldTokens(members: seq<Member>, rest: seq<Token>)
    requires members != []
    ensures var m := members[0];
            var more := MemberTokens(members[1..], false) + [CloseObject] + rest;
            var ts := MemberTokens(members, true) + [CloseObject] + rest;
            |ts| >= 2 && ts[0] == TextToken(m.key) && ts[1] == Colon && ts[2..] == Tokens(m.value) + more
  {
    hide Tokens;
    var m := members[0];
    var more := MemberTokens(members[1..], false) + [CloseObject] + rest;
    assert MemberTokens(members, true) + [CloseObject] + rest == [TextToken(m.key), Colon] + (Tokens(m.value) + more);
  }

  lemma {:induction false} MoreFieldTokens(tail: seq<Member>, rest: seq<Token>)
    requires tail != []
    ensures var more := MemberTokens(tail, false) + [CloseObject] + rest;
            more != [] && more[0] == Comma && more[1..] == MemberTokens(tail, true) + [CloseObject] + rest
  {
    CommaBefore(tail);
    hide MemberTokens;
    var next := MemberTokens(tail, true) + [CloseObject] + rest;
    assert MemberTokens(tail, false) + [CloseObject] + rest == [Comma] + next;
  }

  lemma {:induction false} NoMoreFields(rest: seq<Token>, keys: set<Str>, depth: nat)
    ensures var more := MemberTokens([], false) + [CloseObject] + rest;
            more != [] && more[0] == CloseObject && more[1..] == rest
    ensures FieldsGood([], keys, depth)
  {
    assert MemberTokens([], false) + [CloseObject] + rest == [CloseObject] + rest;
  }

  lemma {:induction false} FieldRefused(ts: seq<Token>, depth: nat, keys: set<Str>)
    ensures |ts| < 2 || !ts[0].TextToken? || !WellFormed(ts[0].text) || ts[0].text in keys || ts[1] != Colon ==>
              Fields(ts, depth, keys).None?
  {
    hide WellFormed, Value;
  }

  /** One round of the loop over members. */
  lemma {:induction false} FieldStep(ts: seq<Token>, depth: nat, keys: set<Str>)
    requires |ts| >= 2 && ts[0].TextToken? && ts[1] == Colon
    ensures var key := ts[0].text;
            Fields(ts, depth, keys) ==
            if !WellFormed(key) || key in keys || |keys| + 1 > MAX_KEYS then None
            else match Value(ts[2..], depth + 1)
                 case None => None
                 case Some(after) =>
                   if after == [] then None
                   else if after[0] == CloseObject then Some(after[1..])
                   else if after[0] == Comma then Fields(after[1..], depth, keys + {key})
                   else None
  {
    hide WellFormed, Value;
    if ts[0].text !in keys {
      assert |keys + {ts[0].text}| == |keys| + 1;
    }
  }

  lemma {:induction false} CommaBefore(members: seq<Member>)
    requires members != []
    ensures MemberTokens(members, false) == [Comma] + MemberTokens(members, true)
  {
  }

  lemma {:induction false} FieldsSplit(members: seq<Member>, keys: set<Str>, depth: nat)
    requires members != []
    ensures var m := members[0];
            FieldsGood(members, keys, depth) <==>
            WellFormed(m.key) && m.key !in keys && Good(m.value, depth) &&
            FieldsGood(members[1..], keys + {m.key}, depth)
  {
    hide Good, WellFormed;
    var tail := members[1..];
    assert forall i {:trigger tail[i]} :: 0 <= i < |tail| ==> tail[i] == members[i + 1];
    assert forall i {:trigger members[i]} :: 1 <= i < |members| ==> members[i] == tail[i - 1];
  }

  /** On the tokens of any JSON value, the recursive scanner refuses exactly repeated keys and its own limits. */
  lemma {:induction false} DecodeIsExact(j: Json)
    ensures Accepts(Tokens(j)) <==> Limited(j, 0) && KeysDistinct(j)
  {
    assert Tokens(j) + [] == Tokens(j);
    ValueReads(j, [], 0);
  }

  // ---------------------------------------------------------------- agreement

  /** Within the limits of the recursive scanner, the flat one never meets its own. */
  lemma {:induction false} LimitedIsShallow(j: Json, depth: nat)
    requires Limited(j, depth)
    ensures Shallow(j, MAX_DEPTH + 1 - depth) && TextsScalar(j)
    decreases j
  {
    match j
    case Array(items) =>
      forall i | 0 <= i < |items|
        ensures Shallow(items[i], MAX_DEPTH - depth) && TextsScalar(items[i])
      {
        LimitedIsShallow(items[i], depth + 1);
      }
    case Object(members) =>
      forall i | 0 <= i < |members|
        ensures Shallow(members[i].value, MAX_DEPTH - depth) && TextsScalar(members[i].value)
      {
        LimitedIsShallow(members[i].value, depth + 1);
      }
    case _ =>
  }

  lemma {:induction false} ShallowGrows(j: Json, a: nat, b: nat)
    requires Shallow(j, a) && a <= b
    ensures Shallow(j, b)
    decreases j
  {
    match j
    case Array(items) =>
      forall i | 0 <= i < |items|
        ensures Shallow(items[i], b - 1)
      {
        ShallowGrows(items[i], a - 1, b - 1);
      }
    case Object(members) =>
      forall i | 0 <= i < |members|
        ensures Shallow(members[i].value, b - 1)
      {
        ShallowGrows(members[i].value, a - 1, b - 1);
      }
    case _ =>
  }

  /**
   The two independently written scanners agree on repeated keys: on every value inside the narrower limits whose
   numbers are exact, both accept or both refuse, and they refuse exactly when some object repeats a decoded key.
   */
  lemma {:induction false} ScannersAgree(j: Json)
    requires Limited(j, 0) && NumbersExact(j) && NumbersBounded(j)
    ensures Accepts(Tokens(j)) <==> KeysDistinct(j)
    ensures FlatScan.Run([], Tokens(j)).Some? <==> KeysDistinct(j)
  {
    DecodeIsExact(j);
    FlatScan.ScanIsExact(j);
    LimitedIsShallow(j, 0);
    ShallowGrows(j, MAX_DEPTH + 1, FlatScan.MAX_LEVELS);
  }
}
