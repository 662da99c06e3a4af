/** Deciding on decimal text whether a JSON number is an exact safe integer. */
module Numbers {
  import opened Decimals

  const MAX_SAFE := 9007199254740991
  const MAX_TOKEN := 0x20_0000
  const MAX_DIGITS := 16

  type Digit = d: nat | d < 10

  /** A number token by its parts; an absent fraction or exponent has no digits. */
  datatype Number = Number(negative: bool, whole: seq<Digit>, fraction: seq<Digit>, down: bool, exponent: seq<Digit>)

  function Decimal(ds: seq<Digit>): nat
  {
    if ds == [] then 0 else 10 * Decimal(ds[..|ds| - 1]) + ds[|ds| - 1]
  }

  function Exponent(t: Number): int
  {
    if t.down then 0 - Decimal(t.exponent) else Decimal(t.exponent)
  }

  function Length(t: Number): nat
  {
    |t.whole| + |t.fraction| + |t.exponent|
  }

  /**
   The exact value of the token is the integer n: digits times the power of ten, compared without division.
   */
  ghost predicate Denotes(t: Number, n: int)
  {
    var digits: int := Decimal(t.whole + t.fraction);
    var scale := Exponent(t) - |t.fraction|;
    var signed := if t.negative then -digits else digits;
    if scale >= 0 then signed * Pow10(scale) == n else signed == n * Pow10(-scale)
  }

  ghost predicate SafeInteger(t: Number)
  {
    exists n :: 0 <= n <= MAX_SAFE && Denotes(t, n)
  }

  // ---------------------------------------------------------------- the decision on text

  function StripZeros(ds: seq<Digit>): (r: seq<Digit>)
    ensures r == [] || r[0] != 0
    ensures |r| <= |ds| && Decimal(r) == Decimal(ds)
  {
    if ds == [] || ds[0] != 0 then ds
    else
      DropZero(ds);
      StripZeros(ds[1..])
  }

  predicate AllZero(ds: seq<Digit>)
  {
    forall i :: 0 <= i < |ds| ==> ds[i] == 0
  }

  function Zeros(n: nat): (zs: seq<Digit>)
    ensures |zs| == n && AllZero(zs)
  {
    seq(n, i => 0)
  }

  /** Floating-point subtraction: exact up to 2 to the 53rd, and never back below it. */
  predicate Rounds(exact: int, rounded: int)
  {
    if exact < -MAX_SAFE - 1 then rounded <= -MAX_SAFE - 1
    else if exact > MAX_SAFE + 1 then rounded >= MAX_SAFE + 1
    else rounded == exact
  }

  /** The checks on the digits, given the rounded scale. */
  predicate Accepts(t: Number, scale: int)
  {
    var digits := StripZeros(t.whole + t.fraction);
    if digits == [] then true
    else if t.negative || Exponent(t) < -MAX_SAFE || Exponent(t) > MAX_SAFE then false
    else if scale < 0 && (-scale > |digits| || !AllZero(digits[|digits| + scale..])) then false
    else
      var kept := if scale < 0 then digits[..|digits| + scale] else digits;
      var zeros := if scale > 0 then scale else 0;
      |kept| + zeros <= MAX_DIGITS && Decimal(kept + Zeros(zeros)) <= MAX_SAFE
  }

  // ---------------------------------------------------------------- decimal arithmetic

  lemma {:induction false} DecimalJoin(a: seq<Digit>, b: seq<Digit>)
    ensures Decimal(a + b) == Decimal(a) * Pow10(|b|) + Decimal(b)
    decreases |b|
  {
    if b == [] {
      assert a + b == a;
    } else {
      var front := b[..|b| - 1];
      DecimalJoin(a, front);
      assert (a + b)[..|a + b| - 1] == a + front;
      Distribute(Decimal(a), Pow10(|front|), Decimal(front));
    }
  }

  lemma {:induction false} Distribute(x: nat, p: nat, y: nat)
    ensures 10 * (x * p + y) == x * (10 * p) + 10 * y
  {
  }

  lemma {:induction false} DropZero(ds: seq<Digit>)
    requires ds != [] && ds[0] == 0
    ensures Decimal(ds[1..]) == Decimal(ds)
  {
    assert ds == [ds[0]] + ds[1..];
    DecimalJoin([ds[0]], ds[1..]);
    assert Decimal([ds[0]]) == 0;
  }

  lemma {:induction false} DecimalBound(ds: seq<Digit>)
    ensures Decimal(ds) < Pow10(|ds|)
    decreases |ds|
  {
    if ds != [] {
      DecimalBound(ds[..|ds| - 1]);
    }
  }

  lemma {:induction false} AllZeroIsZero(ds: seq<Digit>)
    ensures Decimal(ds) == 0 <==> AllZero(ds)
    decreases |ds|
  {
    if ds != [] {
      var front := ds[..|ds| - 1];
      AllZeroIsZero(front);
      assert AllZero(ds) <==> AllZero(front) && ds[|ds| - 1] == 0 by {
        assert forall i :: 0 <= i < |front| ==> front[i] == ds[i];
      }
    }
  }

  lemma {:induction false} LeadingDigit(ds: seq<Digit>)
    requires ds != [] && ds[0] != 0
    ensures Decimal(ds) >= Pow10(|ds| - 1)
  {
    assert ds == [ds[0]] + ds[1..];
    DecimalJoin([ds[0]], ds[1..]);
    assert Decimal([ds[0]]) == ds[0];
    TimesAtLeast(ds[0], Pow10(|ds| - 1));
  }

  lemma {:induction false} TimesAtLeast(a: nat, b: nat)
    requires a >= 1
    ensures a * b >= b
  {
    assert a * b == (a - 1) * b + b;
  }

  /** 17 digits are past the safe range. */
  lemma {:induction false} SixteenDigits()
    ensures Pow10(16) > MAX_SAFE
  {
    assert Pow10(4) == 10000;
    assert Pow10(8) == 100000000;
    assert Pow10(12) == 1000000000000;
    assert Pow10(16) == 10000000000000000;
  }

  /** Digits shifted right by k places stay an integer exactly when the last k digits are zeros. */
  lemma {:induction false} ShiftRight(ds: seq<Digit>, k: nat, n: int)
    requires k <= |ds|
    ensures Decimal(ds) == n * Pow10(k) <==> AllZero(ds[|ds| - k..]) && Decimal(ds[..|ds| - k]) == n
  {
    var a, b := ds[..|ds| - k], ds[|ds| - k..];
    assert ds == a + b;
    DecimalJoin(a, b);
    DecimalBound(b);
    AllZeroIsZero(b);
    if Decimal(ds) == n * Pow10(k) {
      SameQuotient(Decimal(a), n, Pow10(k), Decimal(b));
    }
  }

  lemma {:induction false} SameQuotient(a: int, n: int, p: nat, rest: nat)
    requires rest < p && a * p + rest == n * p
    ensures rest == 0 && a == n
  {
    assert (n - a) * p == rest;
    if n - a >= 1 {
      TimesAtLeast(n - a, p);
      assert false;
    } else if n - a <= -1 {
      TimesAtMost(n - a, p);
      assert false;
    }
  }

  lemma {:induction false} TimesAtMost(a: int, b: nat)
    requires a <= -1
    ensures a * b <= 0 - b
  {
    assert a * b == (a + 1) * b - b;
    NotPositive(a + 1, b);
  }

  /** More places than digits: no positive integer is that small. */
  lemma {:induction false} ShiftedAway(ds: seq<Digit>, k: nat, n: int)
    requires k >= |ds| && Decimal(ds) > 0
    ensures Decimal(ds) != n * Pow10(k)
  {
    DecimalBound(ds);
    Pow10Grows(|ds|, k);
    if n >= 1 {
      TimesAtLeast(n, Pow10(k));
    } else {
      NotPositive(n, Pow10(k));
    }
  }

  lemma {:induction false} NotPositive(n: int, p: nat)
    requires n <= 0
    ensures n * p <= 0
  {
  }

  // ---------------------------------------------------------------- exactness

  /** The digits left of a positive number, shifted right or left, against the safe range. */
  lemma {:induction false} KeptInRange(kept: seq<Digit>, zeros: nat)
    requires kept != [] && kept[0] != 0
    ensures Decimal(kept) * Pow10(zeros) <= MAX_SAFE <==>
            |kept| + zeros <= MAX_DIGITS && Decimal(kept + Zeros(zeros)) <= MAX_SAFE
  {
    var all := kept + Zeros(zeros);
    DecimalJoin(kept, Zeros(zeros));
    AllZeroIsZero(Zeros(zeros));
    assert Decimal(all) == Decimal(kept) * Pow10(zeros);
    if |all| > MAX_DIGITS {
      LeadingDigit(all);
      Pow10Grows(MAX_DIGITS, |all| - 1);
      SixteenDigits();
    }
  }

  /** A zero of any sign and any exponent is the integer zero. */
  lemma {:induction false} ZeroIsSafe(t: Number)
    requires Decimal(t.whole + t.fraction) == 0
    ensures SafeInteger(t)
  {
    assert Denotes(t, 0);
  }

  lemma {:induction false} NegativeIsUnsafe(t: Number)
    requires t.negative && Decimal(t.whole + t.fraction) > 0
    ensures !SafeInteger(t)
  {
    var digits: int, scale := Decimal(t.whole + t.fraction), Exponent(t) - |t.fraction|;
    forall n | 0 <= n <= MAX_SAFE
      ensures !Denotes(t, n)
    {
      hide Decimal, Pow10, Exponent;
      if scale >= 0 {
        TimesAtMost(-digits, Pow10(scale));
      } else {
        NotNegative(n, Pow10(-scale));
      }
    }
  }

  lemma {:induction false} NotNegative(n: nat, p: nat)
    ensures n * p >= 0
  {
  }

  /** A huge exponent either way leaves the safe range, because the digits are few. */
  lemma {:induction false} HugeExponentIsUnsafe(t: Number)
    requires Length(t) <= MAX_TOKEN && !t.negative && Decimal(t.whole + t.fraction) > 0
    requires Exponent(t) < -MAX_SAFE || Exponent(t) > MAX_SAFE
    ensures !SafeInteger(t)
  {
    var digits, scale := t.whole + t.fraction, Exponent(t) - |t.fraction|;
    forall n | 0 <= n <= MAX_SAFE
      ensures !Denotes(t, n)
    {
      if scale >= 0 {
        Pow10Grows(16, scale);
        SixteenDigits();
        TimesAtLeast(Decimal(digits), Pow10(scale));
      } else {
        ShiftedAway(digits, -scale, n);
      }
    }
  }

  /**
   A token of at most 2 MiB is accepted exactly when its exact value is an integer from 0 to 2^53 - 1, whatever
   the rounding of the exponent arithmetic.
   */
  lemma {:induction false} IntegerTokenIsExact(t: Number, scale: int)
    requires Length(t) <= MAX_TOKEN && Rounds(Exponent(t) - |t.fraction|, scale)
    ensures Accepts(t, scale) <==> SafeInteger(t)
  {
    var digits := StripZeros(t.whole + t.fraction);
    if digits == [] {
      ZeroIsSafe(t);
    } else {
      LeadingDigit(digits);
      if t.negative {
        NegativeIsUnsafe(t);
      } else if Exponent(t) < -MAX_SAFE || Exponent(t) > MAX_SAFE {
        HugeExponentIsUnsafe(t);
      } else if scale < 0 {
        if -scale >= |digits| {
          TooFewDigits(t, digits, scale);
        } else {
          EnoughDigits(t, digits, scale);
        }
      } else {
        ShiftedLeft(t, digits, scale);
      }
    }
  }

  lemma {:induction false} ShiftedLeft(t: Number, digits: seq<Digit>, scale: nat)
    requires !t.negative && digits != [] && digits[0] != 0 && Decimal(digits) == Decimal(t.whole + t.fraction)
    requires Exponent(t) - |t.fraction| == scale
    ensures SafeInteger(t) <==> |digits| + scale <= MAX_DIGITS && Decimal(digits + Zeros(scale)) <= MAX_SAFE
  {
    hide *;
    KeptInRange(digits, scale);
    var n := Decimal(digits) * Pow10(scale);
    DenotesShifted(t, digits, scale, n);
    forall m | Denotes(t, m)
      ensures m == n
    {
      DenotesShifted(t, digits, scale, m);
    }
    SafeIs(t);
  }

  lemma {:induction false} DenotesShifted(t: Number, digits: seq<Digit>, scale: nat, n: int)
    requires !t.negative && Decimal(digits) == Decimal(t.whole + t.fraction) && Exponent(t) - |t.fraction| == scale
    ensures Denotes(t, n) <==> n == Decimal(digits) * Pow10(scale)
  {
    hide Decimal, Pow10, Exponent;
  }

  /** With no digit left of the point, only zero would be an integer. */
  lemma {:induction false} TooFewDigits(t: Number, digits: seq<Digit>, scale: int)
    requires Length(t) <= MAX_TOKEN && Rounds(Exponent(t) - |t.fraction|, scale) && scale < 0
    requires digits == StripZeros(t.whole + t.fraction) && digits != [] && !t.negative && Decimal(digits) > 0
    requires -scale >= |digits|
    ensures !Accepts(t, scale) && !SafeInteger(t)
  {
    hide *;
    TooFewRefused(t, digits, scale);
    forall n | 0 <= n <= MAX_SAFE
      ensures !Denotes(t, n)
    {
      TooFewDenotes(t, digits, scale, n);
    }
    SafeIs(t);
  }

  lemma {:induction false} TooFewRefused(t: Number, digits: seq<Digit>, scale: int)
    requires scale < 0 && -scale >= |digits|
    requires digits == StripZeros(t.whole + t.fraction) && digits != []
    ensures !Accepts(t, scale)
  {
    hide Decimal, Pow10, Exponent, StripZeros;
    if -scale == |digits| {
      assert digits[|digits| + scale..] == digits;
      assert digits[0] != 0;
    }
  }

  lemma {:induction false} TooFewDenotes(t: Number, digits: seq<Digit>, scale: int, n: int)
    requires Length(t) <= MAX_TOKEN && Rounds(Exponent(t) - |t.fraction|, scale) && scale < 0
    requires !t.negative && Decimal(digits) == Decimal(t.whole + t.fraction) && Decimal(digits) > 0
    requires |digits| <= |t.whole| + |t.fraction| && -scale >= |digits|
    ensures !Denotes(t, n)
  {
    hide Decimal, Pow10, Exponent;
    ShiftedAway(digits, |t.fraction| - Exponent(t), n);
  }

  lemma {:induction false} EnoughDigits(t: Number, digits: seq<Digit>, scale: int)
    requires Length(t) <= MAX_TOKEN && Rounds(Exponent(t) - |t.fraction|, scale) && scale < 0
    requires digits == StripZeros(t.whole + t.fraction) && digits != [] && !t.negative
    requires -MAX_SAFE <= Exponent(t) <= MAX_SAFE && -scale < |digits|
    ensures Accepts(t, scale) <==> SafeInteger(t)
  {
    var kept, tail := digits[..|digits| + scale], digits[|digits| + scale..];
    KeptAccepted(t, digits, scale, kept, tail);
    hide *;
    DenotesKept(t, digits, scale, Decimal(kept));
    forall n | Denotes(t, n)
      ensures AllZero(tail) && n == Decimal(kept)
    {
      DenotesKept(t, digits, scale, n);
    }
    SafeIs(t);
  }

  lemma {:induction false} SafeIs(t: Number)
    ensures SafeInteger(t) <==> exists n :: 0 <= n <= MAX_SAFE && Denotes(t, n)
  {
    hide Denotes;
  }

  /** With a negative scale inside the digits, the token denotes what is left of zeros, and nothing else. */
  lemma {:induction false} DenotesKept(t: Number, digits: seq<Digit>, scale: int, n: int)
    requires !t.negative && Decimal(digits) == Decimal(t.whole + t.fraction) && scale < 0 && -scale < |digits|
    requires Exponent(t) - |t.fraction| == scale
    ensures Denotes(t, n) <==> AllZero(digits[|digits| + scale..]) && n == Decimal(digits[..|digits| + scale])
  {
    hide Decimal, Pow10, AllZero, Exponent;
    ShiftRight(digits, -scale, n);
  }

  lemma {:induction false} KeptAccepted(t: Number, digits: seq<Digit>, scale: int, kept: seq<Digit>, tail: seq<Digit>)
    requires Length(t) <= MAX_TOKEN && Rounds(Exponent(t) - |t.fraction|, scale) && scale < 0
    requires digits == StripZeros(t.whole + t.fraction) && digits != [] && !t.negative
    requires -MAX_SAFE <= Exponent(t) <= MAX_SAFE && -scale < |digits|
    requires kept == digits[..|digits| + scale] && tail == digits[|digits| + scale..]
    ensures Exponent(t) - |t.fraction| == scale
    ensures Accepts(t, scale) <==> AllZero(tail) && Decimal(kept) <= MAX_SAFE
  {
    hide Decimal, Pow10;
    assert kept[0] == digits[0];
    KeptInRange(kept, 0);
    KeepsUnit(kept);
    assert kept + Zeros(0) == kept;
  }

  lemma {:induction false} KeepsUnit(kept: seq<Digit>)
    ensures Decimal(kept) * Pow10(0) == Decimal(kept)
  {
  }
}
