/** JSON values, their tokens, and what the two strict readers ask of them. */
module Json {
  import opened Numbers
  import opened Products

  /** A UTF-16 code unit, and a decoded string of them. */
  type CodeUnit = u: nat | u < 0x1_0000
  type Str = seq<CodeUnit>

  datatype Json =
    | Word
    | Num(number: Number)
    | Text(text: Str)
    | Array(items: seq<Json>)
    | Object(members: seq<Member>)

  datatype Member = Member(key: Str, value: Json)

  datatype Token = OpenArray | CloseArray | OpenObject | CloseObject | Comma | Colon | WordToken
                 | NumberToken(number: Number) | TextToken(text: Str)

  predicate High(u: CodeUnit)
  {
    0xD800 <= u <= 0xDBFF
  }

  predicate Low(u: CodeUnit)
  {
    0xDC00 <= u <= 0xDFFF
  }

  /** No unpaired surrogate, reading code point by code point. */
  predicate WellFormed(s: Str)
  {
    if s == [] then true
    else if High(s[0]) then |s| > 1 && Low(s[1]) && WellFormed(s[2..])
    else !Low(s[0]) && WellFormed(s[1..])
  }

  /** The tokens of a value, without white space. */
  function Tokens(j: Json): seq<Token>
    decreases j
  {
    match j
    case Word => [WordToken]
    case Num(n) => [NumberToken(n)]
    case Text(s) => [TextToken(s)]
    case Array(items) => [OpenArray] + ItemTokens(items, true) + [CloseArray]
    case Object(members) => [OpenObject] + MemberTokens(members, true) + [CloseObject]
  }

  function Separator(first: bool): seq<Token>
  {
    if first then [] else [Comma]
  }

  function ItemTokens(items: seq<Json>, first: bool): seq<Token>
    decreases items
  {
    if items == [] then [] else Separator(first) + (Tokens(items[0]) + ItemTokens(items[1..], false))
  }

  function MemberTokens(members: seq<Member>, first: bool): seq<Token>
    decreases members
  {
    if members == [] then []
    else Separator(first) + ([TextToken(members[0].key), Colon] +
                             (Tokens(members[0].value) + MemberTokens(members[1..], false)))
  }

  // ---------------------------------------------------------------- properties of values

  ghost predicate DistinctMembers(members: seq<Member>)
  {
    forall i, j :: 0 <= i < j < |members| ==> members[i].key != members[j].key
  }

  /** No object repeats a decoded key. */
  ghost predicate KeysDistinct(j: Json)
    decreases j
  {
    match j
    case Array(items) => forall i :: 0 <= i < |items| ==> KeysDistinct(items[i])
    case Object(members) => DistinctMembers(members) &&
      forall i :: 0 <= i < |members| ==> KeysDistinct(members[i].value)
    case _ => true
  }

  /** Every number is the exact value of a safe integer. */
  ghost predicate NumbersExact(j: Json)
    decreases j
  {
    match j
    case Num(n) => SafeInteger(n)
    case Array(items) => forall i :: 0 <= i < |items| ==> NumbersExact(items[i])
    case Object(members) => forall i :: 0 <= i < |members| ==> NumbersExact(members[i].value)
    case _ => true
  }

  /** Every string and key is well-formed. */
  ghost predicate TextsScalar(j: Json)
    decreases j
  {
    match j
    case Text(s) => WellFormed(s)
    case Array(items) => forall i :: 0 <= i < |items| ==> TextsScalar(items[i])
    case Object(members) => forall i :: 0 <= i < |members| ==>
      WellFormed(members[i].key) && TextsScalar(members[i].value)
    case _ => true
  }

  /** No more than `levels` arrays and objects are open at once. */
  ghost predicate Shallow(j: Json, levels: nat)
    decreases j
  {
    match j
    case Array(items) => levels > 0 && forall i :: 0 <= i < |items| ==> Shallow(items[i], levels - 1)
    case Object(members) => levels > 0 && forall i :: 0 <= i < |members| ==> Shallow(members[i].value, levels - 1)
    case _ => true
  }

  /** Number tokens of a document within the byte budget are no longer than it. */
  ghost predicate NumbersBounded(j: Json)
    decreases j
  {
    match j
    case Num(n) => Length(n) <= MAX_TOKEN
    case Array(items) => forall i :: 0 <= i < |items| ==> NumbersBounded(items[i])
    case Object(members) => forall i :: 0 <= i < |members| ==> NumbersBounded(members[i].value)
    case _ => true
  }
}

/** The flat scanner of the descriptor reader. */
module FlatScan {
  import opened Products
  import opened Numbers
  import opened Json

  const MAX_LEVELS := 128

  /** One open container; an object remembers its keys and whether a key comes next. */
  datatype Frame = ArrayFrame | ObjectFrame(keys: set<Str>, key: bool)

  predicate ExactToken(n: Number)
  {
    Accepts(n, Exponent(n) - |n.fraction|)
  }

  function Top(stack: seq<Frame>, frame: Frame): seq<Frame>
    requires stack != []
  {
    stack[..|stack| - 1] + [frame]
  }

  /** What one token does to the stack; None refuses the document. */
  function Step(stack: seq<Frame>, t: Token): Option<seq<Frame>>
  {
    if t.OpenArray? || t.OpenObject? then
      if |stack| >= MAX_LEVELS then None
      else Some(stack + [if t.OpenObject? then ObjectFrame({}, true) else ArrayFrame])
    else if t.CloseArray? || t.CloseObject? then Some(if stack == [] then [] else stack[..|stack| - 1])
    else if t.TextToken? && !WellFormed(t.text) then None
    else if t.NumberToken? && !ExactToken(t.number) then None
    else if stack == [] || stack[|stack| - 1].ArrayFrame? then Some(stack)
    else
      var innermost := stack[|stack| - 1];
      if t.Comma? then Some(Top(stack, innermost.(key := true)))
      else if t.Colon? then Some(Top(stack, innermost.(key := false)))
      else if t.TextToken? && innermost.key then
        if t.text in innermost.keys then None else Some(Top(stack, ObjectFrame(innermost.keys + {t.text}, false)))
      else Some(stack)
  }

  function Run(stack: seq<Frame>, tokens: seq<Token>): Option<seq<Frame>>
    decreases |tokens|
  {
    if tokens == [] then Some(stack)
    else
      match Step(stack, tokens[0])
      case None => None
      case Some(next) => Run(next, tokens[1..])
  }

  /** The loop over all tokens. */
  method Scan(tokens: seq<Token>) returns (ok: bool)
    ensures ok <==> Run([], tokens).Some?
  {
    hide Step;
    var stack: seq<Frame> := [];
    assert tokens[0..] == tokens;
    for at := 0 to |tokens|
      invariant Run([], tokens) == Run(stack, tokens[at..])
    {
      assert tokens[at..][0] == tokens[at] && tokens[at..][1..] == tokens[at + 1..];
      var next := Step(stack, tokens[at]);
      if next.None? {
        return false;
      }
      stack := next.value;
    }
    ok := true;
  }

  // ---------------------------------------------------------------- the tokens of one value

  /** Acceptable below `depth` open containers. */
  ghost predicate Fine(j: Json, depth: nat)
    decreases j
  {
    match j
    case Word => true
    case Num(n) => ExactToken(n)
    case Text(s) => WellFormed(s)
    case Array(items) => depth < MAX_LEVELS && ItemsFine(items, depth + 1)
    case Object(members) => depth < MAX_LEVELS && MembersFine(members, {}, depth + 1)
  }

  ghost predicate ItemsFine(items: seq<Json>, depth: nat)
    decreases items
  {
    items == [] || (Fine(items[0], depth) && ItemsFine(items[1..], depth))
  }

  /** Members after the keys already seen. */
  ghost predicate MembersFine(members: seq<Member>, seen: set<Str>, depth: nat)
    decreases members
  {
    members == [] ||
    (WellFormed(members[0].key) && members[0].key !in seen && Fine(members[0].value, depth)
     && MembersFine(members[1..], seen + {members[0].key}, depth))
  }

  function MemberKeys(members: seq<Member>): set<Str>
  {
    if members == [] then {} else {members[0].key} + MemberKeys(members[1..])
  }

  lemma {:induction false} RunJoins(stack: seq<Frame>, a: seq<Token>, b: seq<Token>)
    ensures Run(stack, a + b) == (match Run(stack, a) case None => None case Some(next) => Run(next, b))
    decreases |a|
  {
    hide Step;
    if a == [] {
      assert a + b == b;
    } else {
      assert (a + b)[0] == a[0] && (a + b)[1..] == a[1..] + b;
      var next := Step(stack, a[0]);
      if next.Some? {
        RunJoins(next.value, a[1..], b);
      }
    }
  }

  lemma {:induction false} RunOne(stack: seq<Frame>, t: Token)
    ensures Run(stack, [t]) == Step(stack, t)
  {
    hide Step;
    var next := Step(stack, t);
    assert [t][1..] == [];
  }

  /** A value may come next: the innermost open object, if any, is past a key. */
  predicate Expecting(stack: seq<Frame>)
  {
    stack == [] || stack[|stack| - 1].ArrayFrame? || !stack[|stack| - 1].key
  }

  /** The tokens of a value leave the stack as it was, or refuse the document. */
  lemma {:induction false} RunValue(j: Json, stack: seq<Frame>)
    requires Expecting(stack)
    ensures Run(stack, Tokens(j)) == if Fine(j, |stack|) then Some(stack) else None
    decreases j
  {
    match j
    case Array(items) =>
      OpenClose(stack, OpenArray, ItemTokens(items, true), CloseArray);
      hide Run, ItemTokens, ItemsFine;
      if |stack| < MAX_LEVELS {
        RunItems(items, true, stack + [ArrayFrame]);
      }
    case Object(members) =>
      OpenClose(stack, OpenObject, MemberTokens(members, true), CloseObject);
      hide Run, MemberTokens, MembersFine;
      if |stack| < MAX_LEVELS {
        RunMembers(members, true, stack + [ObjectFrame({}, true)]);
      }
    case Word =>
      RunOne(stack, WordToken);
    case Num(n) =>
      RunOne(stack, NumberToken(n));
    case Text(s) =>
      RunOne(stack, TextToken(s));
  }

  /** A container runs its contents on a stack one deeper, and drops that level again. */
  lemma {:induction false} OpenClose(stack: seq<Frame>, open: Token, inner: seq<Token>, close: Token)
    requires open.OpenArray? || open.OpenObject?
    requires close.CloseArray? || close.CloseObject?
    ensures var within := stack + [if open.OpenObject? then ObjectFrame({}, true) else ArrayFrame];
            Run(stack, [open] + inner + [close]) ==
            if |stack| >= MAX_LEVELS then None
            else match Run(within, inner)
                 case None => None
                 case Some(done) => Some(if done == [] then [] else done[..|done| - 1])
  {
    RunJoins(stack, [open] + inner, [close]);
    RunJoins(stack, [open], inner);
    RunOne(stack, open);
    var within := stack + [if open.OpenObject? then ObjectFrame({}, true) else ArrayFrame];
    if |stack| < MAX_LEVELS {
      var done := Run(within, inner);
      if done.Some? {
        RunOne(done.value, close);
      }
    }
  }

  lemma {:induction false} RunSeparator(first: bool, stack: seq<Frame>)
    requires stack != [] && (first && stack[|stack| - 1].ObjectFrame? ==> stack[|stack| - 1].key)
    ensures Run(stack, Separator(first)) ==
            Some(if stack[|stack| - 1].ArrayFrame? then stack else Top(stack, stack[|stack| - 1].(key := true)))
  {
    if first {
      assert stack == stack[..|stack| - 1] + [stack[|stack| - 1]];
    } else {
      RunOne(stack, Comma);
    }
  }

  lemma {:induction false} RunItems(items: seq<Json>, first: bool, stack: seq<Frame>)
    requires stack != [] && stack[|stack| - 1].ArrayFrame?
    ensures Run(stack, ItemTokens(items, first)) == if ItemsFine(items, |stack|) then Some(stack) else None
    decreases items
  {
    hide Step;
    if items != [] {
      var rest := ItemTokens(items[1..], false);
      RunJoins(stack, Separator(first), Tokens(items[0]) + rest);
      RunSeparator(first, stack);
      RunJoins(stack, Tokens(items[0]), rest);
      RunValue(items[0], stack);
      RunItems(items[1..], false, stack);
    }
  }

  lemma {:induction false} RunMembers(members: seq<Member>, first: bool, stack: seq<Frame>)
    requires stack != [] && stack[|stack| - 1].ObjectFrame? && (first ==> stack[|stack| - 1].key)
    ensures var innermost := stack[|stack| - 1];
            Run(stack, MemberTokens(members, first)) ==
            if MembersFine(members, innermost.keys, |stack|) then
              Some(Top(stack, ObjectFrame(innermost.keys + MemberKeys(members),
                                          if members == [] then innermost.key else false)))
            else None
    decreases members
  {
    hide Step;
    var innermost := stack[|stack| - 1];
    if members == [] {
      assert Top(stack, innermost) == stack;
      assert innermost.keys + MemberKeys(members) == innermost.keys;
    } else {
      var m := members[0];
      var value, rest := Tokens(m.value), MemberTokens(members[1..], false);
      var named := Top(stack, innermost.(key := true));
      RunJoins(stack, Separator(first), [TextToken(m.key), Colon] + (value + rest));
      RunSeparator(first, stack);
      RunJoins(named, [TextToken(m.key), Colon], value + rest);
      RunKey(named, m.key);
      if WellFormed(m.key) && m.key !in innermost.keys {
        var after := Top(named, ObjectFrame(innermost.keys + {m.key}, false));
        RunJoins(after, value, rest);
        RunValue(m.value, after);
        RunMembers(members[1..], false, after);
        assert innermost.keys + {m.key} + MemberKeys(members[1..]) == innermost.keys + MemberKeys(members);
      }
    }
  }

  /** A key and its colon: refused when the key is malformed or repeated. */
  lemma {:induction false} RunKey(stack: seq<Frame>, key: Str)
    requires stack != [] && stack[|stack| - 1].ObjectFrame? && stack[|stack| - 1].key
    ensures var innermost := stack[|stack| - 1];
            Run(stack, [TextToken(key), Colon]) ==
            if WellFormed(key) && key !in innermost.keys
            then Some(Top(stack, ObjectFrame(innermost.keys + {key}, false)))
            else None
  {
    assert [TextToken(key), Colon] == [TextToken(key)] + [Colon];
    RunJoins(stack, [TextToken(key)], [Colon]);
    RunOne(stack, TextToken(key));
    var innermost := stack[|stack| - 1];
    if WellFormed(key) && key !in innermost.keys {
      RunOne(Top(stack, ObjectFrame(innermost.keys + {key}, false)), Colon);
    }
  }

  // ---------------------------------------------------------------- what the scanner decides

  lemma {:induction false} FineMeans(j: Json, depth: nat)
    requires NumbersBounded(j) && depth <= MAX_LEVELS
    ensures Fine(j, depth) <==> KeysDistinct(j) && Shallow(j, MAX_LEVELS - depth) && NumbersExact(j) && TextsScalar(j)
    decreases j
  {
    match j
    case Num(n) =>
      IntegerTokenIsExact(n, Exponent(n) - |n.fraction|);
    case Array(items) =>
      if depth < MAX_LEVELS {
        ItemsMean(items, depth + 1);
      }
    case Object(members) =>
      if depth < MAX_LEVELS {
        MembersMean(members, {}, depth + 1);
      }
    case _ =>
  }

  lemma {:induction false} ItemsMean(items: seq<Json>, depth: nat)
    requires depth <= MAX_LEVELS && forall i :: 0 <= i < |items| ==> NumbersBounded(items[i])
    ensures ItemsFine(items, depth) <==>
            forall i {:trigger items[i]} :: 0 <= i < |items| ==>
              KeysDistinct(items[i]) && Shallow(items[i], MAX_LEVELS - depth) && NumbersExact(items[i]) &&
              TextsScalar(items[i])
    decreases items
  {
    hide KeysDistinct, Shallow, NumbersExact, TextsScalar, NumbersBounded;
    if items != [] {
      FineMeans(items[0], depth);
      ItemsMean(items[1..], depth);
      assert forall i {:trigger items[i]} :: 1 <= i < |items| ==> items[i] == items[1..][i - 1];
      assert forall i {:trigger items[1..][i]} :: 0 <= i < |items| - 1 ==> items[1..][i] == items[i + 1];
    }
  }

  lemma {:induction false} MembersMean(members: seq<Member>, seen: set<Str>, depth: nat)
    requires depth <= MAX_LEVELS && forall i :: 0 <= i < |members| ==> NumbersBounded(members[i].value)
    ensures MembersFine(members, seen, depth) <==>
            && DistinctMembers(members) && (forall i :: 0 <= i < |members| ==> members[i].key !in seen)
            && forall i {:trigger members[i]} :: 0 <= i < |members| ==>
                 && WellFormed(members[i].key) && KeysDistinct(members[i].value)
                 && Shallow(members[i].value, MAX_LEVELS - depth)
                 && NumbersExact(members[i].value) && TextsScalar(members[i].value)
    decreases members
  {
    hide KeysDistinct, Shallow, NumbersExact, TextsScalar, NumbersBounded, WellFormed;
    if members != [] {
      FineMeans(members[0].value, depth);
      MembersMean(members[1..], seen + {members[0].key}, depth);
      assert forall i {:trigger members[i]} :: 1 <= i < |members| ==> members[i] == members[1..][i - 1];
      assert forall i {:trigger members[1..][i]} :: 0 <= i < |members| - 1 ==> members[1..][i] == members[i + 1];
    }
  }

  /**
   On the tokens of any JSON value, the flat scanner refuses exactly repeated keys, nesting beyond 128 levels,
   inexact numbers and malformed strings.
   */
  lemma {:induction false} ScanIsExact(j: Json)
    requires NumbersBounded(j)
    ensures Run([], Tokens(j)).Some? <==>
            KeysDistinct(j) && Shallow(j, MAX_LEVELS) && NumbersExact(j) && TextsScalar(j)
  {
    RunValue(j, []);
    FineMeans(j, 0);
  }
}
