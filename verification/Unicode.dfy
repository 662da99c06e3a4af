/** The byte scan that refuses unpaired surrogate escapes in JSON text. */
module Unicode {
  import opened Json

  type Byte = b: nat | b < 256

  const QUOTE: Byte := 0x22
  const BACKSLASH: Byte := 0x5C
  const LETTER_U: Byte := 0x75

  predicate HexDigit(b: Byte)
  {
    0x30 <= b <= 0x39 || 0x41 <= b <= 0x46 || 0x61 <= b <= 0x66
  }

  function HexValue(b: Byte): (v: nat)
    requires HexDigit(b)
    ensures v < 16
  {
    if b <= 0x39 then b - 0x30 else if b <= 0x46 then b - 0x37 else b - 0x57
  }

  predicate Hex(s: seq<Byte>)
  {
    |s| == 4 && HexDigit(s[0]) && HexDigit(s[1]) && HexDigit(s[2]) && HexDigit(s[3])
  }

  function Code(s: seq<Byte>): CodeUnit
    requires Hex(s)
  {
    0x1000 * HexValue(s[0]) + 0x100 * HexValue(s[1]) + 0x10 * HexValue(s[2]) + HexValue(s[3])
  }

  /** The decision on the bytes that are left, inside or outside a string. */
  predicate Valid(s: seq<Byte>, inString: bool)
    decreases |s|
  {
    if s == [] then true
    else if s[0] == QUOTE then Valid(s[1..], !inString)
    else if !inString || s[0] != BACKSLASH then Valid(s[1..], inString)
    else if |s| < 2 then false
    else if s[1] != LETTER_U then Valid(s[2..], inString)
    else if |s| < 6 || !Hex(s[2..6]) then false
    else if High(Code(s[2..6])) then
      |s| >= 12 && s[6] == BACKSLASH && s[7] == LETTER_U && Hex(s[8..12]) && Low(Code(s[8..12])) &&
      Valid(s[12..], inString)
    else !Low(Code(s[2..6])) && Valid(s[6..], inString)
  }

  /** The index loop: it never reads past the end, on any bytes at all. */
  method ValidUnicodeEscapes(b: seq<Byte>) returns (ok: bool)
    ensures ok <==> Valid(b, false)
  {
    hide Hex, Code, High, Low;
    var inString := false;
    var i := 0;
    assert b[0..] == b;
    while i < |b|
      invariant 0 <= i <= |b| && (Valid(b, false) <==> Valid(b[i..], inString))
    {
      ghost var s := b[i..];
      assert s[1..] == b[i + 1..];
      if b[i] == QUOTE {
        inString := !inString;
        i := i + 1;
        continue;
      }
      if !inString || b[i] != BACKSLASH {
        i := i + 1;
        continue;
      }
      i := i + 1;
      if i >= |b| {
        return false;
      }
      assert s[1] == b[i] && s[2..] == b[i + 1..];
      if b[i] != LETTER_U {
        i := i + 1;
        continue;
      }
      if i + 4 >= |b| {
        return false;
      }
      assert s[2..6] == b[i + 1..i + 5] && s[6..] == b[i + 5..];
      if !Hex(b[i + 1..i + 5]) {
        return false;
      }
      var code := Code(b[i + 1..i + 5]);
      i := i + 4;
      if High(code) {
        if i + 6 >= |b| || b[i + 1] != BACKSLASH || b[i + 2] != LETTER_U {
          return false;
        }
        assert s[6] == b[i + 1] && s[7] == b[i + 2] && s[8..12] == b[i + 3..i + 7] && s[12..] == b[i + 7..];
        if !Hex(b[i + 3..i + 7]) || !Low(Code(b[i + 3..i + 7])) {
          return false;
        }
        i := i + 6;
      } else if Low(code) {
        return false;
      }
      i := i + 1;
    }
    ok := true;
  }

  // ---------------------------------------------------------------- well-formed text

  predicate Scalar(c: nat)
  {
    c <= 0x10FFFF && !(0xD800 <= c <= 0xDFFF)
  }

  /** One unit of a string literal: a plain scalar, a two-character escape, or four hexadecimal digits. */
  datatype Unit = Plain(scalar: nat) | Short(letter: Byte) | Escape(digits: seq<Byte>)

  predicate ValidUnit(u: Unit)
  {
    match u
    case Plain(c) => Scalar(c) && c >= 0x20 && c != QUOTE && c != BACKSLASH
    case Short(l) => l in {QUOTE, BACKSLASH, 0x2F, 0x62, 0x66, 0x6E, 0x72, 0x74}
    case Escape(d) => Hex(d)
  }

  function Utf8(c: nat): seq<Byte>
    requires Scalar(c)
  {
    if c < 0x80 then [c]
    else if c < 0x800 then [0xC0 + c / 0x40, 0x80 + c % 0x40]
    else if c < 0x1_0000 then [0xE0 + c / 0x1000, 0x80 + c / 0x40 % 0x40, 0x80 + c % 0x40]
    else [0xF0 + c / 0x4_0000, 0x80 + c / 0x1000 % 0x40, 0x80 + c / 0x40 % 0x40, 0x80 + c % 0x40]
  }

  function UnitBytes(u: Unit): seq<Byte>
    requires ValidUnit(u)
  {
    match u
    case Plain(c) => Utf8(c)
    case Short(l) => [BACKSLASH, l]
    case Escape(d) => [BACKSLASH, LETTER_U] + d
  }

  ghost predicate ValidUnits(us: seq<Unit>)
  {
    forall i :: 0 <= i < |us| ==> ValidUnit(us[i])
  }

  function Bytes(us: seq<Unit>): seq<Byte>
    requires forall i :: 0 <= i < |us| ==> ValidUnit(us[i])
  {
    if us == [] then [] else UnitBytes(us[0]) + Bytes(us[1..])
  }

  /** A part of a document: bytes without a quote outside strings, or a string literal. */
  datatype Piece = Outside(bytes: seq<Byte>) | Literal(units: seq<Unit>)

  ghost predicate ValidPiece(p: Piece)
  {
    match p
    case Outside(bytes) => QUOTE !in bytes
    case Literal(units) => ValidUnits(units)
  }

  ghost function PieceBytes(p: Piece): seq<Byte>
    requires ValidPiece(p)
  {
    match p
    case Outside(bytes) => bytes
    case Literal(units) => [QUOTE] + Bytes(units) + [QUOTE]
  }

  ghost function Document(ps: seq<Piece>): seq<Byte>
    requires forall i :: 0 <= i < |ps| ==> ValidPiece(ps[i])
  {
    if ps == [] then [] else PieceBytes(ps[0]) + Document(ps[1..])
  }

  predicate HighEscape(u: Unit)
  {
    u.Escape? && Hex(u.digits) && High(Code(u.digits))
  }

  predicate LowEscape(u: Unit)
  {
    u.Escape? && Hex(u.digits) && Low(Code(u.digits))
  }

  /** Every surrogate escape is half of an adjacent high-low pair. */
  ghost predicate Paired(us: seq<Unit>)
  {
    && (forall i :: 0 <= i < |us| && HighEscape(us[i]) ==> i + 1 < |us| && LowEscape(us[i + 1]))
    && (forall i :: 0 <= i < |us| && LowEscape(us[i]) ==> i > 0 && HighEscape(us[i - 1]))
  }

  // ---------------------------------------------------------------- the scan inside one literal

  /** A plain scalar contributes no quote and no backslash. */
  lemma {:induction false} PlainBytes(c: nat)
    requires ValidUnit(Plain(c))
    ensures |Utf8(c)| > 0 && QUOTE !in Utf8(c) && BACKSLASH !in Utf8(c)
  {
  }

  /** Bytes that are neither quote nor backslash are skipped. */
  lemma {:induction false} SkipsPlain(s: seq<Byte>, rest: seq<Byte>, inString: bool)
    requires QUOTE !in s && (inString ==> BACKSLASH !in s)
    ensures Valid(s + rest, inString) <==> Valid(rest, inString)
    decreases |s|
  {
    if s == [] {
      assert s + rest == rest;
    } else {
      assert s[0] in s && (s + rest)[0] == s[0] && (s + rest)[1..] == s[1..] + rest;
      SkipsPlain(s[1..], rest, inString);
    }
  }

  lemma {:induction false} SkipsShort(l: Byte, rest: seq<Byte>)
    requires ValidUnit(Short(l))
    ensures Valid([BACKSLASH, l] + rest, true) <==> Valid(rest, true)
  {
    var s := [BACKSLASH, l] + rest;
    assert s[2..] == rest;
  }

  lemma {:induction false} SkipsEscape(d: seq<Byte>, rest: seq<Byte>)
    requires Hex(d) && !High(Code(d))
    ensures Valid([BACKSLASH, LETTER_U] + d + rest, true) <==> !Low(Code(d)) && Valid(rest, true)
  {
    var s := [BACKSLASH, LETTER_U] + d + rest;
    assert s[2..6] == d && s[6..] == rest;
    hide Hex, Code, High, Low;
  }

  lemma {:induction false} SkipsPair(d: seq<Byte>, e: seq<Byte>, rest: seq<Byte>)
    requires Hex(d) && High(Code(d)) && Hex(e)
    ensures Valid([BACKSLASH, LETTER_U] + d + ([BACKSLASH, LETTER_U] + e + rest), true) <==>
              Low(Code(e)) && Valid(rest, true)
  {
    var s := [BACKSLASH, LETTER_U] + d + ([BACKSLASH, LETTER_U] + e + rest);
    assert s[2..6] == d && s[6] == BACKSLASH && s[7] == LETTER_U && s[8..12] == e && s[12..] == rest;
    hide Hex, Code, High, Low;
  }

  lemma {:induction false} RefusesHigh(d: seq<Byte>, rest: seq<Byte>)
    requires Hex(d) && High(Code(d)) && (|rest| < 2 || rest[0] != BACKSLASH || rest[1] != LETTER_U)
    ensures !Valid([BACKSLASH, LETTER_U] + d + rest, true)
  {
    var s := [BACKSLASH, LETTER_U] + d + rest;
    assert s[2..6] == d && s[6..] == rest;
    assert |s| >= 8 ==> s[6] == rest[0] && s[7] == rest[1];
    hide Hex, Code, High, Low;
  }

  /** Pairing, read from the front. */
  ghost predicate PairedFrom(us: seq<Unit>)
  {
    if us == [] then true
    else if HighEscape(us[0]) then |us| > 1 && LowEscape(us[1]) && PairedFrom(us[2..])
    else !LowEscape(us[0]) && PairedFrom(us[1..])
  }

  lemma {:induction false} PairedFromStart(us: seq<Unit>)
    ensures PairedFrom(us) <==> Paired(us)
    decreases |us|
  {
    if us != [] {
      if HighEscape(us[0]) {
        if |us| > 1 && LowEscape(us[1]) {
          HighIsNotLow(us[0]);
          HighIsNotLow(us[1]);
          PairedFromStart(us[2..]);
          hide HighEscape, LowEscape;
          PairedDrop(us, 2);
        }
      } else {
        PairedFromStart(us[1..]);
        hide HighEscape, LowEscape;
        if !LowEscape(us[0]) {
          PairedDrop(us, 1);
        }
      }
    }
  }

  lemma {:induction false} HighIsNotLow(u: Unit)
    ensures !(HighEscape(u) && LowEscape(u))
  {
  }

  /** Dropping a paired beginning neither mends nor breaks the pairing. */
  lemma {:induction false} PairedDrop(us: seq<Unit>, n: nat)
    requires 1 <= n <= 2 && n <= |us| && !LowEscape(us[0])
    requires n == 1 ==> !HighEscape(us[0])
    requires n == 2 ==> HighEscape(us[0]) && LowEscape(us[1]) && !HighEscape(us[1])
    ensures Paired(us) <==> Paired(us[n..])
  {
    hide HighEscape, LowEscape;
    var rest := us[n..];
    assert forall i {:trigger rest[i]} :: 0 <= i < |rest| ==> rest[i] == us[i + n];
    if Paired(us) {
      forall i | 0 <= i < |rest|
        ensures HighEscape(rest[i]) ==> i + 1 < |rest| && LowEscape(rest[i + 1])
        ensures LowEscape(rest[i]) ==> i > 0 && HighEscape(rest[i - 1])
      {
        assert rest[i] == us[i + n];
        if LowEscape(rest[i]) {
          assert HighEscape(us[i + n - 1]);
        }
      }
    }
    if Paired(rest) {
      forall i | 0 <= i < |us|
        ensures HighEscape(us[i]) ==> i + 1 < |us| && LowEscape(us[i + 1])
        ensures LowEscape(us[i]) ==> i > 0 && HighEscape(us[i - 1])
      {
        if i >= n {
          assert rest[i - n] == us[i];
        }
      }
    }
  }

  /** What the scan of the rest of a literal means. */
  ghost predicate Scans(us: seq<Unit>, rest: seq<Byte>)
    requires ValidUnits(us)
  {
    Valid(Bytes(us) + ([QUOTE] + rest), true) <==> PairedFrom(us) && Valid(rest, false)
  }

  /** A literal's closing quote is reached exactly when its escapes are paired. */
  lemma {:induction false} LiteralScans(us: seq<Unit>, rest: seq<Byte>)
    requires ValidUnits(us)
    ensures Scans(us, rest)
    decreases |us|
  {
    var tail := [QUOTE] + rest;
    if us == [] {
      assert Bytes(us) + tail == tail && tail[0] == QUOTE && tail[1..] == rest;
    } else {
      hide Scans;
      ValidRest(us, 1);
      LiteralScans(us[1..], rest);
      if |us| > 1 {
        ValidRest(us, 2);
        LiteralScans(us[2..], rest);
      }
      UnitScans(us, rest);
    }
  }

  lemma {:induction false} ValidRest(us: seq<Unit>, n: nat)
    requires ValidUnits(us) && n <= |us|
    ensures ValidUnits(us[n..])
  {
    hide ValidUnit;
    assert forall i {:trigger us[n..][i]} :: 0 <= i < |us| - n ==> us[n..][i] == us[i + n];
  }

  lemma {:induction false} BytesSplit(us: seq<Unit>, tail: seq<Byte>)
    requires us != [] && ValidUnits(us) && ValidUnits(us[1..])
    ensures ValidUnit(us[0]) && Bytes(us) + tail == UnitBytes(us[0]) + (Bytes(us[1..]) + tail)
  {
    hide ValidUnit, UnitBytes;
  }

  /** The step for the first unit of a literal. */
  lemma {:induction false} UnitScans(us: seq<Unit>, rest: seq<Byte>)
    requires us != [] && ValidUnits(us) && ValidUnits(us[1..]) && Scans(us[1..], rest)
    requires |us| > 1 ==> ValidUnits(us[2..]) && Scans(us[2..], rest)
    ensures Scans(us, rest)
  {
    var tail := [QUOTE] + rest;
    var after := Bytes(us[1..]) + tail;
    BytesSplit(us, tail);
    hide Valid, Hex, Code, High, Low, Bytes;
    match us[0]
    case Plain(c) =>
      PlainBytes(c);
      SkipsPlain(Utf8(c), after, true);
    case Short(l) =>
      SkipsShort(l, after);
    case Escape(d) =>
      if High(Code(d)) {
        HighScans(us, rest);
      } else {
        SkipsEscape(d, after);
      }
  }

  /** A high surrogate escape is accepted only with the low one right behind it. */
  lemma {:induction false} HighScans(us: seq<Unit>, rest: seq<Byte>)
    requires us != [] && ValidUnits(us) && ValidUnits(us[1..]) && HighEscape(us[0])
    requires |us| > 1 ==> ValidUnits(us[2..]) && Scans(us[2..], rest)
    ensures Scans(us, rest)
  {
    var tail := [QUOTE] + rest;
    var d, more, after := us[0].digits, us[1..], Bytes(us[1..]) + ([QUOTE] + rest);
    BytesSplit(us, tail);
    hide Valid, Hex, Code, High, Low, Bytes;
    if more == [] {
      BytesEnd(tail);
      RefusesHigh(d, after);
    } else {
      assert more[0] == us[1] && more[1..] == us[2..];
      BytesSplit(more, tail);
      var later := Bytes(us[2..]) + tail;
      match more[0]
      case Plain(c) =>
        PlainBytes(c);
        assert after[0] == Utf8(c)[0] && Utf8(c)[0] in Utf8(c);
        RefusesHigh(d, after);
      case Short(l) =>
        assert after[0] == BACKSLASH && after[1] == l;
        RefusesHigh(d, after);
      case Escape(e) =>
        SkipsPair(d, e, later);
    }
  }

  lemma {:induction false} BytesEnd(tail: seq<Byte>)
    ensures Bytes([]) + tail == tail
  {
  }

  // ---------------------------------------------------------------- whole documents

  ghost predicate ValidPieces(ps: seq<Piece>)
  {
    forall i :: 0 <= i < |ps| ==> ValidPiece(ps[i])
  }

  ghost predicate AllPaired(ps: seq<Piece>)
  {
    forall i :: 0 <= i < |ps| && ps[i].Literal? ==> Paired(ps[i].units)
  }

  lemma {:induction false} OutsideScans(bytes: seq<Byte>, rest: seq<Byte>)
    requires QUOTE !in bytes
    ensures Valid(bytes + rest, false) <==> Valid(rest, false)
  {
    SkipsPlain(bytes, rest, false);
  }

  lemma {:induction false} PieceScans(p: Piece, rest: seq<Byte>)
    requires ValidPiece(p)
    ensures Valid(PieceBytes(p) + rest, false) <==> (p.Literal? ==> Paired(p.units)) && Valid(rest, false)
  {
    match p
    case Outside(bytes) =>
      OutsideScans(bytes, rest);
    case Literal(us) =>
      LiteralPieceScans(us, rest);
  }

  lemma {:induction false} LiteralPieceScans(us: seq<Unit>, rest: seq<Byte>)
    requires ValidUnits(us)
    ensures Valid([QUOTE] + Bytes(us) + [QUOTE] + rest, false) <==> Paired(us) && Valid(rest, false)
  {
    LiteralScans(us, rest);
    PairedFromStart(us);
    hide *;
    var inner := Bytes(us) + ([QUOTE] + rest);
    assert [QUOTE] + Bytes(us) + [QUOTE] + rest == [QUOTE] + inner;
    OpensLiteral(inner);
    ScansIs(us, rest);
  }

  lemma {:induction false} OpensLiteral(inner: seq<Byte>)
    ensures Valid([QUOTE] + inner, false) == Valid(inner, true)
  {
    var s := [QUOTE] + inner;
    assert s[0] == QUOTE && s[1..] == inner;
  }

  lemma {:induction false} ScansIs(us: seq<Unit>, rest: seq<Byte>)
    requires ValidUnits(us) && Scans(us, rest)
    ensures Valid(Bytes(us) + ([QUOTE] + rest), true) <==> PairedFrom(us) && Valid(rest, false)
  {
    hide Bytes, PairedFrom, Valid, ValidUnits;
  }

  /**
   On every document, which is any sequence of bytes outside strings and of string literals, the scan accepts
   exactly when every surrogate escape inside a literal is half of an adjacent high-low pair.
   */
  lemma {:induction false} ScanAcceptsPairs(ps: seq<Piece>)
    requires ValidPieces(ps)
    ensures Valid(Document(ps), false) <==> AllPaired(ps)
    decreases |ps|
  {
    hide ValidPiece, Paired;
    if ps != [] {
      var more := ps[1..];
      assert forall i {:trigger more[i]} :: 0 <= i < |more| ==> more[i] == ps[i + 1];
      ScanAcceptsPairs(more);
      PieceScans(ps[0], Document(more));
      hide Valid, Document;
      PairedSplit(ps);
    }
  }

  lemma {:induction false} PairedSplit(ps: seq<Piece>)
    requires ps != []
    ensures AllPaired(ps) <==> (ps[0].Literal? ==> Paired(ps[0].units)) && AllPaired(ps[1..])
  {
    hide Paired;
    var more := ps[1..];
    assert forall i {:trigger more[i]} :: 0 <= i < |more| ==> more[i] == ps[i + 1];
    assert forall i {:trigger ps[i]} :: 1 <= i < |ps| ==> ps[i] == more[i - 1];
  }

  // ---------------------------------------------------------------- decoded strings

  function Utf16(c: nat): (s: Str)
    requires Scalar(c)
  {
    if c < 0x1_0000 then [c] else [0xD800 + (c - 0x1_0000) / 0x400, 0xDC00 + (c - 0x1_0000) % 0x400]
  }

  function DecodedUnit(u: Unit): Str
    requires ValidUnit(u)
  {
    match u
    case Plain(c) => Utf16(c)
    case Short(l) => [if l == 0x62 then 8 else if l == 0x66 then 12 else if l == 0x6E then 10
                      else if l == 0x72 then 13 else if l == 0x74 then 9 else l]
    case Escape(d) => [Code(d)]
  }

  /** The code units a literal decodes to. */
  function Decoded(us: seq<Unit>): Str
    requires forall i :: 0 <= i < |us| ==> ValidUnit(us[i])
  {
    if us == [] then [] else DecodedUnit(us[0]) + Decoded(us[1..])
  }

  /** The first decoded code unit is a low surrogate only for a low escape. */
  lemma {:induction false} FirstDecoded(us: seq<Unit>)
    requires ValidUnits(us) && us != []
    ensures |Decoded(us)| > 0
    ensures Low(Decoded(us)[0]) <==> LowEscape(us[0])
  {
    assert ValidUnit(us[0]);
    hide Code, Hex;
    var u := us[0];
    if u.Plain? && u.scalar >= 0x1_0000 {
      assert High(Utf16(u.scalar)[0]);
    }
  }

  /**
   The byte scan and the check of decoded strings agree: escapes are paired in the text exactly when the decoded
   string has no unpaired surrogate.
   */
  lemma {:induction false} PairedIsWellFormed(us: seq<Unit>)
    requires ValidUnits(us)
    ensures PairedFrom(us) <==> WellFormed(Decoded(us))
    decreases |us|
  {
    if us != [] {
      ValidRest(us, 1);
      var u, more := us[0], us[1..];
      assert ValidUnit(u);
      PairedIsWellFormed(more);
      if more != [] {
        FirstDecoded(more);
        assert more[0] == us[1];
      }
      if HighEscape(u) {
        if more != [] && LowEscape(more[0]) {
          ValidRest(us, 2);
          PairedIsWellFormed(us[2..]);
          PairDecoded(us);
        } else {
          AloneDecoded(us);
        }
      } else {
        OtherUnit(us);
      }
      hide Decoded, WellFormed, HighEscape, LowEscape;
    }
  }

  /** A high escape and the low escape after it decode to a pair. */
  lemma {:induction false} PairDecoded(us: seq<Unit>)
    requires ValidUnits(us) && |us| > 1 && ValidUnits(us[1..]) && ValidUnits(us[2..]) && HighEscape(us[0]) &&
             LowEscape(us[1])
    ensures WellFormed(Decoded(us)) <==> WellFormed(Decoded(us[2..]))
  {
    assert ValidUnit(us[0]) && ValidUnit(us[1]) && us[1..][1..] == us[2..];
    assert Decoded(us) == [Code(us[0].digits), Code(us[1].digits)] + Decoded(us[2..]);
    assert Decoded(us)[2..] == Decoded(us[2..]);
  }

  /** A high escape without a low one after it stays unpaired. */
  lemma {:induction false} AloneDecoded(us: seq<Unit>)
    requires us != [] && ValidUnits(us) && ValidUnits(us[1..]) && HighEscape(us[0])
    requires |us| > 1 ==> !LowEscape(us[1]) && |Decoded(us[1..])| > 0 && !Low(Decoded(us[1..])[0])
    ensures !WellFormed(Decoded(us))
  {
    assert ValidUnit(us[0]);
    assert Decoded(us) == [Code(us[0].digits)] + Decoded(us[1..]);
  }

  lemma {:induction false} OtherUnit(us: seq<Unit>)
    requires us != [] && ValidUnits(us) && ValidUnits(us[1..]) && !HighEscape(us[0])
    ensures WellFormed(Decoded(us)) <==> !LowEscape(us[0]) && WellFormed(Decoded(us[1..]))
  {
    var u, rest := us[0], Decoded(us[1..]);
    assert ValidUnit(u);
    match u
    case Plain(c) =>
      ScalarFirst(c, rest);
    case Short(l) =>
      assert Decoded(us)[1..] == rest;
    case Escape(d) =>
      assert Decoded(us) == [Code(d)] + rest && Decoded(us)[1..] == rest;
  }

  lemma {:induction false} ScalarFirst(c: nat, rest: Str)
    requires Scalar(c)
    ensures WellFormed(Utf16(c) + rest) <==> WellFormed(rest)
  {
    var s := Utf16(c) + rest;
    if c < 0x1_0000 {
      assert s[1..] == rest;
    } else {
      assert High(s[0]) && Low(s[1]) && s[2..] == rest;
    }
  }

  ghost predicate AllScalars(cs: seq<nat>)
  {
    forall i :: 0 <= i < |cs| ==> Scalar(cs[i])
  }

  function Encoded(cs: seq<nat>): Str
    requires forall i :: 0 <= i < |cs| ==> Scalar(cs[i])
  {
    if cs == [] then [] else Utf16(cs[0]) + Encoded(cs[1..])
  }

  lemma {:induction false} EncodedIsWellFormed(cs: seq<nat>)
    requires AllScalars(cs)
    ensures WellFormed(Encoded(cs))
    decreases |cs|
  {
    if cs != [] {
      EncodedIsWellFormed(cs[1..]);
      ScalarFirst(cs[0], Encoded(cs[1..]));
    }
  }

  /** However a sequence of Unicode scalars is escaped in a literal, its escapes are paired. */
  lemma {:induction false} EveryEscapingIsPaired(us: seq<Unit>, cs: seq<nat>)
    requires ValidUnits(us) && AllScalars(cs) && Decoded(us) == Encoded(cs)
    ensures Paired(us)
  {
    EncodedIsWellFormed(cs);
    PairedIsWellFormed(us);
    PairedFromStart(us);
  }

  /** Bytes and decoded strings agree: the scan accepts a document exactly when every literal decodes to scalars. */
  lemma {:induction false} ScanAcceptsScalars(ps: seq<Piece>)
    requires ValidPieces(ps)
    ensures Valid(Document(ps), false) <==>
            forall i {:trigger ps[i]} :: 0 <= i < |ps| && ps[i].Literal? ==>
              ValidUnits(ps[i].units) && WellFormed(Decoded(ps[i].units))
  {
    ScanAcceptsPairs(ps);
    hide Document, Valid, Paired, PairedFrom, WellFormed;
    forall i {:trigger ps[i]} | 0 <= i < |ps| && ps[i].Literal?
      ensures ValidUnits(ps[i].units) && (WellFormed(Decoded(ps[i].units)) <==> Paired(ps[i].units))
    {
      assert ValidPiece(ps[i]);
      PairedIsWellFormed(ps[i].units);
      PairedFromStart(ps[i].units);
    }
  }
}
