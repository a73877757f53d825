/** Conversion of 16-bit wide strings to UTF-8, and the way back through the code points. */
module Utf8 {

  type Unit = bv16
  type CodePoint = bv32
  type Byte = bv8

  const MAX_CODE_POINT_1: bv32 := (1 << 7) - 1
  const MAX_CODE_POINT_2: bv32 := (1 << (5 + 6)) - 1
  const MAX_CODE_POINT_3: bv32 := (1 << (4 + 2 * 6)) - 1
  const MAX_CODE_POINT_4: bv32 := (1 << (3 + 3 * 6)) - 1

  predicate Encodable(c: CodePoint) {
    0 < c <= MAX_CODE_POINT_4
  }

  /** The UTF-8 bytes of a code point. */
  function Encoded(c: CodePoint): seq<Byte> {
    if c <= MAX_CODE_POINT_1 then [c as Byte]
    else if c <= MAX_CODE_POINT_2 then [Lead(0xC0, c >> 6), Tail(c)]
    else if c <= MAX_CODE_POINT_3 then [Lead(0xE0, c >> 12), Tail(c >> 6), Tail(c)]
    else [Lead(0xF0, c >> 18), Tail(c >> 12), Tail(c >> 6), Tail(c)]
  }

  /** The bits left when the lowest six are chopped off. */
  function Chop(c: CodePoint): CodePoint {
    c >> 6
  }

  /** The byte of the mark and the bits left, truncated to eight bits. */
  function Lead(mark: CodePoint, c: CodePoint): Byte {
    ((mark | c) & 0xFF) as Byte
  }

  function Tail(c: CodePoint): Byte {
    (0x80 | (c & 0x3F)) as Byte
  }

  predicate IsTail(b: Byte) {
    b & 0xC0 == 0x80
  }

  function Payload(b: Byte, mask: Byte): CodePoint {
    (b & mask) as CodePoint
  }

  datatype Option<T> = None | Some(value: T)

  datatype Decoded = Decoded(point: CodePoint, length: nat)

  /** How many bytes a code point with this first byte takes, 0 when none starts so. */
  function LengthBy(first: Byte): nat {
    if first < 0x80 then 1
    else if first & 0xE0 == 0xC0 then 2
    else if first & 0xF0 == 0xE0 then 3
    else if first & 0xF8 == 0xF0 then 4
    else 0
  }

  function Join1(a: Byte): CodePoint {
    a as CodePoint
  }

  function Join2(a: Byte, b: Byte): CodePoint {
    (Payload(a, 0x1F) << 6) | Payload(b, 0x3F)
  }

  function Join3(a: Byte, b: Byte, c: Byte): CodePoint {
    (Payload(a, 0x0F) << 12) | (Payload(b, 0x3F) << 6) | Payload(c, 0x3F)
  }

  function Join4(a: Byte, b: Byte, c: Byte, d: Byte): CodePoint {
    (Payload(a, 0x07) << 18) | (Payload(b, 0x3F) << 12) | (Payload(c, 0x3F) << 6) | Payload(d, 0x3F)
  }

  /** The least and the greatest code point that takes that many bytes. */
  predicate Takes(c: CodePoint, length: nat) {
    match length
    case 1 => c <= 0x7F
    case 2 => 0x80 <= c <= 0x7FF
    case 3 => 0x800 <= c <= 0xFFFF
    case 4 => 0x1_0000 <= c <= 0x10_FFFF
    case _ => false
  }

  function Joined(s: seq<Byte>, length: nat): CodePoint
    requires 1 <= length <= 4 && length <= |s|
  {
    match length
    case 1 => Join1(s[0])
    case 2 => Join2(s[0], s[1])
    case 3 => Join3(s[0], s[1], s[2])
    case _ => Join4(s[0], s[1], s[2], s[3])
  }

  /** The first code point by section 3 of RFC 3629, shortest forms only, with surrogates let through. */
  function DecodeOne(s: seq<Byte>): (r: Option<Decoded>)
    ensures r.Some? ==> 1 <= r.value.length <= |s|
  {
    if s == [] then None
    else
      var length := LengthBy(s[0]);
      if 1 <= length <= 4 && length <= |s| && (forall k :: 1 <= k < length ==> IsTail(s[k]))
         && Takes(Joined(s, length), length)
      then Some(Decoded(Joined(s, length), length)) else None
  }

  lemma TwoBytes(c: CodePoint)
    requires 0x80 <= c <= 0x7FF
    ensures var a, b := Lead(0xC0, c >> 6), Tail(c);
      LengthBy(a) == 2 && IsTail(b) && Join2(a, b) == c
  {
  }

  lemma ThreeBytes(c: CodePoint)
    requires 0x800 <= c <= 0xFFFF
    ensures var a, b, d := Lead(0xE0, c >> 12), Tail(c >> 6), Tail(c);
      LengthBy(a) == 3 && IsTail(b) && IsTail(d) && Join3(a, b, d) == c
  {
  }

  lemma FourBytes(c: CodePoint)
    requires 0x1_0000 <= c <= 0x10_FFFF
    ensures var a, b, d, e := Lead(0xF0, c >> 18), Tail(c >> 12), Tail(c >> 6), Tail(c);
      LengthBy(a) == 4 && IsTail(b) && IsTail(d) && IsTail(e) && Join4(a, b, d, e) == c
  {
  }

  lemma OneByte(c: CodePoint)
    requires c <= 0x7F
    ensures LengthBy(c as Byte) == 1 && Join1(c as Byte) == c
  {
  }

  /** The bytes of a code point: as many as it takes, the first one saying so, and joining to it. */
  lemma EncodedFacts(c: CodePoint)
    requires c <= 0x10_FFFF
    ensures var s := Encoded(c); var n := |s|;
      1 <= n <= 4 && LengthBy(s[0]) == n && Joined(s, n) == c && Takes(c, n) && forall k :: 1 <= k < n ==> IsTail(s[k])
  {
    hide Lead, Tail, IsTail, LengthBy, Join1, Join2, Join3, Join4;
    if c <= 0x7F {
      OneByte(c);
    } else if c <= 0x7FF {
      TwoBytes(c);
    } else if c <= 0xFFFF {
      ThreeBytes(c);
    } else {
      FourBytes(c);
    }
  }

  lemma JoinedPrefix(s: seq<Byte>, rest: seq<Byte>)
    requires 1 <= |s| <= 4
    ensures Joined(s + rest, |s|) == Joined(s, |s|)
  {
    hide Join1, Join2, Join3, Join4;
  }

  lemma OneRoundTrip(c: CodePoint, rest: seq<Byte>)
    requires c <= 0x10_FFFF
    ensures DecodeOne(Encoded(c) + rest) == Some(Decoded(c, |Encoded(c)|))
  {
    hide Encoded, IsTail, LengthBy, Joined, Takes;
    EncodedFacts(c);
    JoinedPrefix(Encoded(c), rest);
    var s, n := Encoded(c), |Encoded(c)|;
    assert forall k :: 0 <= k < n ==> (s + rest)[k] == s[k];
  }

  function Decode(s: seq<Byte>): Option<seq<CodePoint>>
    decreases |s|
  {
    if s == [] then Some([])
    else
      match DecodeOne(s)
      case None => None
      case Some(d) =>
        match Decode(s[d.length..])
        case None => None
        case Some(points) => Some([d.point] + points)
  }

  function EncodedAll(points: seq<CodePoint>): seq<Byte> {
    if points == [] then [] else Encoded(points[0]) + EncodedAll(points[1..])
  }

  predicate Unicode(points: seq<CodePoint>) {
    forall k :: 0 <= k < |points| ==> points[k] <= 0x10_FFFF
  }

  /** Decoding undoes the conversion of code points, surrogates included. */
  lemma {:induction false} DecodeEncoded(points: seq<CodePoint>)
    requires Unicode(points)
    ensures Decode(EncodedAll(points)) == Some(points)
  {
    hide Encoded, DecodeOne;
    if points != [] {
      var rest := EncodedAll(points[1..]);
      var s := Encoded(points[0]) + rest;
      OneRoundTrip(points[0], rest);
      assert s[|Encoded(points[0])|..] == rest;
      DecodeEncoded(points[1..]);
      assert points == [points[0]] + points[1..];
    }
  }

  // ---------- 16-bit units ----------

  predicate IsUtf16SurrogatePair(first: Unit, second: Unit) {
    first & 0xFC00 == 0xD800 && second & 0xFC00 == 0xDC00
  }

  function CreateCodePointFromUtf16SurrogatePair(first: Unit, second: Unit): CodePoint {
    (((first & 0x3FF) as CodePoint << 10) | (second & 0x3FF) as CodePoint) + 0x1_0000
  }

  function Widen(unit: Unit): CodePoint {
    unit as CodePoint
  }

  /** The code points of a string of units: pairs combined, every other unit on its own. */
  function CodePoints(units: seq<Unit>): seq<CodePoint>
    decreases |units|
  {
    if units == [] then []
    else if |units| >= 2 && IsUtf16SurrogatePair(units[0], units[1]) then
      [CreateCodePointFromUtf16SurrogatePair(units[0], units[1])] + CodePoints(units[2..])
    else [Widen(units[0])] + CodePoints(units[1..])
  }

  function HighSurrogate(c: CodePoint): Unit
    requires 0x1_0000 <= c <= 0x10_FFFF
  {
    (0xD800 | ((c - 0x1_0000) >> 10)) as Unit
  }

  function LowSurrogate(c: CodePoint): Unit
    requires 0x1_0000 <= c <= 0x10_FFFF
  {
    (0xDC00 | ((c - 0x1_0000) & 0x3FF)) as Unit
  }

  /** Section 2.1 of RFC 2781. */
  function UnitsOf(c: CodePoint): seq<Unit>
    requires c <= 0x10_FFFF
  {
    if c < 0x1_0000 then [c as Unit] else [HighSurrogate(c), LowSurrogate(c)]
  }

  function Units(points: seq<CodePoint>): seq<Unit>
    requires Unicode(points)
  {
    if points == [] then [] else UnitsOf(points[0]) + Units(points[1..])
  }

  lemma PairBits(first: Unit, second: Unit)
    requires IsUtf16SurrogatePair(first, second)
    ensures var c := CreateCodePointFromUtf16SurrogatePair(first, second);
      Encodable(c) && 0x1_0000 <= c <= 0x10_FFFF && HighSurrogate(c) == first && LowSurrogate(c) == second
  {
  }

  lemma PairBack(first: Unit, second: Unit)
    requires IsUtf16SurrogatePair(first, second)
    ensures var c := CreateCodePointFromUtf16SurrogatePair(first, second);
      0x1_0000 <= c <= 0x10_FFFF && UnitsOf(c) == [first, second]
  {
    hide HighSurrogate, LowSurrogate, IsUtf16SurrogatePair, CreateCodePointFromUtf16SurrogatePair;
    PairBits(first, second);
  }

  lemma SingleBack(unit: Unit)
    ensures Widen(unit) <= 0x10_FFFF && UnitsOf(Widen(unit)) == [unit]
    ensures unit != 0 ==> Encodable(Widen(unit))
  {
  }

  /** Encoding the code points again gives back the units, lone surrogates included. */
  lemma {:induction false} UnitsBack(units: seq<Unit>)
    ensures Unicode(CodePoints(units)) && Units(CodePoints(units)) == units
    decreases |units|
  {
    hide UnitsOf, IsUtf16SurrogatePair, CreateCodePointFromUtf16SurrogatePair, Widen, Encodable;
    if |units| >= 2 && IsUtf16SurrogatePair(units[0], units[1]) {
      PairBack(units[0], units[1]);
      UnitsBack(units[2..]);
      assert units == [units[0], units[1]] + units[2..];
    } else if units != [] {
      SingleBack(units[0]);
      UnitsBack(units[1..]);
      assert units == [units[0]] + units[1..];
    }
  }

  function Converted(units: seq<Unit>): seq<Byte> {
    EncodedAll(CodePoints(units))
  }

  /** Decoding the output and encoding the code points in 16-bit units gives back the input. */
  lemma RoundTrip(units: seq<Unit>)
    ensures Decode(Converted(units)) == Some(CodePoints(units))
    ensures Unicode(CodePoints(units)) && Units(CodePoints(units)) == units
  {
    UnitsBack(units);
    DecodeEncoded(CodePoints(units));
  }

  /** Different strings are converted differently. */
  lemma ConversionIsInjective(u: seq<Unit>, v: seq<Unit>)
    requires Converted(u) == Converted(v)
    ensures u == v
  {
    hide Decode, CodePoints, Units, EncodedAll;
    RoundTrip(u);
    RoundTrip(v);
  }

  // ---------- the conversion as it is carried out ----------

  /** The characters before the terminating NUL. */
  function Terminated<T(==)>(s: seq<T>, nul: T): seq<T> {
    if s == [] || s[0] == nul then [] else [s[0]] + Terminated(s[1..], nul)
  }

  lemma {:induction false} TerminatedAt<T>(s: seq<T>, nul: T, n: nat)
    requires n < |s| && s[n] == nul && forall k :: 0 <= k < n ==> s[k] != nul
    ensures Terminated(s, nul) == s[..n]
  {
    if n > 0 {
      TerminatedAt(s[1..], nul, n - 1);
      assert s[..n] == [s[0]] + s[1..][..n - 1];
    }
  }

  lemma {:induction false} TerminatedFacts<T>(s: seq<T>, nul: T)
    requires nul in s
    ensures var n := |Terminated(s, nul)|;
      n < |s| && s[n] == nul && Terminated(s, nul) == s[..n] && forall k :: 0 <= k < n ==> s[k] != nul
  {
    if s[0] != nul {
      assert s == [s[0]] + s[1..];
      TerminatedFacts(s[1..], nul);
      var n := |Terminated(s[1..], nul)|;
      assert s[..n + 1] == [s[0]] + s[1..][..n];
    }
  }

  function HexDigit(c: CodePoint): Byte {
    if c & 0xF < 10 then (0x30 + (c & 0xF)) as Byte else (0x37 + (c & 0xF)) as Byte
  }

  /** The number without its last digit. */
  function HigherDigits(c: CodePoint): CodePoint {
    c >> 4
  }

  /** At most n upper-case hexadecimal digits. */
  function Hex(c: CodePoint, n: nat): (s: seq<Byte>)
    requires n > 0
    ensures 1 <= |s| <= n && forall k :: 0 <= k < |s| ==> s[k] != 0
  {
    if n == 1 || c < 16 then [HexDigit(c)] else Hex(HigherDigits(c), n - 1) + [HexDigit(c)]
  }

  /** "(Invalid Unicode 0x", in ASCII. */
  const INVALID: seq<Byte> :=
    [0x28, 0x49, 0x6E, 0x76, 0x61, 0x6C, 0x69, 0x64, 0x20, 0x55, 0x6E, 0x69, 0x63, 0x6F, 0x64, 0x65, 0x20, 0x30, 0x78]

  function Invalid(c: CodePoint): (s: seq<Byte>)
    ensures 21 <= |s| <= 28 && forall k :: 0 <= k < |s| ==> s[k] != 0
  {
    INVALID + Hex(c, 8) + [0x29]
  }

  /** The number a digit stands for. */
  function DigitValue(b: Byte): CodePoint {
    if 0x30 <= b <= 0x39 then (b - 0x30) as CodePoint else if 0x41 <= b <= 0x46 then (b - 0x37) as CodePoint else 0xFF
  }

  /** The number the hexadecimal digits stand for. */
  function HexValue(s: seq<Byte>): CodePoint {
    if s == [] then 0 else (HexValue(s[..|s| - 1]) << 4) | DigitValue(s[|s| - 1])
  }

  lemma DigitBack(c: CodePoint)
    ensures DigitValue(HexDigit(c)) == c & 0xF
  {
  }

  lemma HexStep(c: CodePoint, s: seq<Byte>)
    requires HexValue(s) == HigherDigits(c)
    ensures HexValue(s + [HexDigit(c)]) == c
  {
    DigitBack(c);
    hide HexDigit, DigitValue;
    assert (s + [HexDigit(c)])[..|s|] == s;
    HexBits(c);
  }

  lemma HexBits(c: CodePoint)
    ensures ((c >> 4) << 4) | (c & 0xF) == c
  {
  }


  /** The greatest number of n digits. */
  function Greatest(n: nat): CodePoint {
    match n
    case 0 => 0
    case 1 => 0xF
    case 2 => 0xFF
    case 3 => 0xFFF
    case 4 => 0xFFFF
    case 5 => 0xF_FFFF
    case 6 => 0xFF_FFFF
    case 7 => 0xFFF_FFFF
    case _ => 0xFFFF_FFFF
  }

  lemma OneDigitLess(c: CodePoint, n: nat)
    requires 0 < n <= 8 && c <= Greatest(n)
    ensures HigherDigits(c) <= Greatest(n - 1)
  {
    ShiftDown(c, Greatest(n));
  }

  lemma HexUnfold(c: CodePoint, n: nat)
    requires n > 0
    ensures Hex(c, n) == if n == 1 || c < 16 then [HexDigit(c)] else Hex(HigherDigits(c), n - 1) + [HexDigit(c)]
  {
    hide HexDigit, HigherDigits;
  }

  lemma LastDigit(c: CodePoint, n: nat)
    requires c <= Greatest(n) && (n == 1 || c < 16)
    ensures c < 16
  {
  }

  lemma ShiftDown(c: CodePoint, d: CodePoint)
    requires c <= d
    ensures c >> 4 <= d >> 4
  {
  }

  lemma {:induction false} HexBack(c: CodePoint, n: nat)
    requires 0 < n <= 8 && c <= Greatest(n)
    ensures HexValue(Hex(c, n)) == c
    decreases n
  {
    hide HexDigit, HexValue, Greatest, Hex, HigherDigits;
    HexUnfold(c, n);
    if n == 1 || c < 16 {
      LastDigit(c, n);
      SingleDigit(c);
    } else {
      OneDigitLess(c, n);
      HexBack(HigherDigits(c), n - 1);
      HexStep(c, Hex(HigherDigits(c), n - 1));
    }
  }

  lemma SingleDigit(c: CodePoint)
    requires c < 16
    ensures HexValue([HexDigit(c)]) == c
  {
    DigitBack(c);
    hide HexDigit, DigitValue;
    assert [HexDigit(c)][..0] == [];
    LowDigit(c);
  }

  lemma LowDigit(c: CodePoint)
    requires c < 16
    ensures (0 << 4) | (c & 0xF) == c
  {
  }

  /** The text of an invalid code point is its number in hexadecimal digits, between fixed words and a bracket. */
  lemma InvalidText(c: CodePoint)
    ensures var s, n := Invalid(c), |INVALID|;
      |s| > n + 1 && s[..n] == INVALID && s[|s| - 1] == 0x29 && HexValue(s[n..|s| - 1]) == c
  {
    hide HexValue;
    HexBack(c, 8);
    var s, n := Invalid(c), |INVALID|;
    assert s[n..|s| - 1] == Hex(c, 8) && s[..n] == INVALID;
  }

  lemma NoNul(c: CodePoint)
    requires Encodable(c)
    ensures forall k :: 0 <= k < |Encoded(c)| ==> Encoded(c)[k] != 0
  {
  }

  lemma HoldsEncoded(c: CodePoint, s: seq<Byte>)
    requires Encodable(c) && |s| >= 32
    requires var n := |Encoded(c)|; s[n] == 0 && s[..n] == Encoded(c)
    ensures Terminated(s, 0) == Encoded(c)
  {
    NoNul(c);
    hide Encoded;
    var n := |Encoded(c)|;
    forall k | 0 <= k < n ensures s[k] != 0 {
      assert s[k] == s[..n][k];
    }
    TerminatedAt(s, 0, n);
  }

  lemma HoldsNothing(str: array<Byte>)
    requires str.Length >= 1 && str[0] == 0
    ensures Terminated(str[..], 0) == []
  {
  }

  lemma HoldsOne(c: CodePoint, str: array<Byte>)
    requires 0 < c <= MAX_CODE_POINT_1 && str.Length >= 32 && str[0] == c as Byte && str[1] == 0
    ensures Terminated(str[..], 0) == Encoded(c)
  {
    assert str[..][..1] == [str[0]];
    HoldsEncoded(c, str[..]);
  }

  lemma HoldsTwo(c: CodePoint, str: array<Byte>)
    requires MAX_CODE_POINT_1 < c <= MAX_CODE_POINT_2 && str.Length >= 32
    requires str[0] == Lead(0xC0, Chop(c)) && str[1] == Tail(c) && str[2] == 0
    ensures Terminated(str[..], 0) == Encoded(c)
  {
    hide Lead, Tail, Chop;
    Shifts(c);
    assert str[..][..2] == [str[0], str[1]];
    HoldsEncoded(c, str[..]);
  }

  lemma HoldsThree(c: CodePoint, str: array<Byte>)
    requires MAX_CODE_POINT_2 < c <= MAX_CODE_POINT_3 && str.Length >= 32
    requires str[0] == Lead(0xE0, Chop(Chop(c))) && str[1] == Tail(Chop(c)) && str[2] == Tail(c) && str[3] == 0
    ensures Terminated(str[..], 0) == Encoded(c)
  {
    hide Lead, Tail, Chop;
    Shifts(c);
    assert str[..][..3] == [str[0], str[1], str[2]];
    HoldsEncoded(c, str[..]);
  }

  lemma HoldsFour(c: CodePoint, str: array<Byte>)
    requires MAX_CODE_POINT_3 < c <= MAX_CODE_POINT_4 && str.Length >= 32
    requires str[0] == Lead(0xF0, Chop(Chop(Chop(c)))) && str[1] == Tail(Chop(Chop(c))) && str[2] == Tail(Chop(c))
    requires str[3] == Tail(c) && str[4] == 0
    ensures Terminated(str[..], 0) == Encoded(c)
  {
    hide Lead, Tail, Chop;
    Shifts(c);
    assert str[..][..4] == [str[0], str[1], str[2], str[3]];
    HoldsEncoded(c, str[..]);
  }

  lemma HoldsText(text: seq<Byte>, s: seq<Byte>)
    requires |text| < |s| && s[|text|] == 0
    requires forall k :: 0 <= k < |text| ==> s[k] == text[k] && text[k] != 0
    ensures Terminated(s, 0) == text
  {
    TerminatedAt(s, 0, |text|);
    assert s[..|text|] == text;
  }

  lemma Shifts(c: CodePoint)
    ensures Chop(c) == c >> 6 && Chop(Chop(c)) == c >> 12 && Chop(Chop(Chop(c))) == c >> 18
  {
  }

  /** A text and its NUL, the rest of the 32 bytes filled with NULs. */
  method PutText(text: seq<Byte>, str: array<Byte>)
    requires str.Length >= 32 && |text| < 32 && forall k :: 0 <= k < |text| ==> text[k] != 0
    modifies str
    ensures Terminated(str[..], 0) == text
  {
    hide Terminated;
    for i := 0 to 32
      invariant forall k :: 0 <= k < i ==> str[k] == if k < |text| then text[k] else 0
    {
      str[i] := if i < |text| then text[i] else 0;
    }
    str[31] := 0;
    HoldsText(text, str[..]);
  }

  /** Leaves a NUL-terminated string in the buffer: the encoded code point, empty for zero,
      or a text when it does not fit in 21 bits. */
  method CodePointToUtf8(codePoint: CodePoint, str: array<Byte>)
    requires str.Length >= 32
    modifies str
    ensures Terminated(str[..], 0) ==
            if codePoint == 0 then []
            else if codePoint <= MAX_CODE_POINT_4 then Encoded(codePoint) else Invalid(codePoint)
  {
    hide Lead, Tail, Chop, Encoded, Terminated, Invalid;
    var rest := codePoint;
    if codePoint <= MAX_CODE_POINT_1 {
      str[1] := 0;
      str[0] := codePoint as Byte;
      if codePoint == 0 {
        HoldsNothing(str);
      } else {
        HoldsOne(codePoint, str);
      }
    } else if codePoint <= MAX_CODE_POINT_2 {
      str[2] := 0;
      str[1] := Tail(rest);
      rest := Chop(rest);
      str[0] := Lead(0xC0, rest);
      HoldsTwo(codePoint, str);
    } else if codePoint <= MAX_CODE_POINT_3 {
      str[3] := 0;
      str[2] := Tail(rest);
      rest := Chop(rest);
      str[1] := Tail(rest);
      rest := Chop(rest);
      str[0] := Lead(0xE0, rest);
      HoldsThree(codePoint, str);
    } else if codePoint <= MAX_CODE_POINT_4 {
      str[4] := 0;
      str[3] := Tail(rest);
      rest := Chop(rest);
      str[2] := Tail(rest);
      rest := Chop(rest);
      str[1] := Tail(rest);
      rest := Chop(rest);
      str[0] := Lead(0xF0, rest);
      HoldsFour(codePoint, str);
    } else {
      PutText(Invalid(codePoint), str);
    }
  }

  /** The units that are converted: up to the NUL, and at most numChars of them unless that is -1. */
  function Processed(str: seq<Unit>, numChars: int): seq<Unit> {
    var all := Terminated(str, 0);
    if numChars == -1 || |all| <= numChars then all else if numChars < 0 then [] else all[..numChars]
  }

  /** The code point as it is written to the stream. */
  method Narrow(c: CodePoint) returns (text: seq<Byte>)
    requires Encodable(c)
    ensures text == Encoded(c)
  {
    var buffer := new Byte[32];
    CodePointToUtf8(c, buffer);
    text := Terminated(buffer[..], 0);
  }

  lemma ConvertedPair(units: seq<Unit>, i: nat)
    requires i + 1 < |units| && IsUtf16SurrogatePair(units[i], units[i + 1])
    ensures var c := CreateCodePointFromUtf16SurrogatePair(units[i], units[i + 1]);
      Encodable(c) && Converted(units[i..]) == Encoded(c) + Converted(units[i + 2..])
  {
    hide Encoded, IsUtf16SurrogatePair, CreateCodePointFromUtf16SurrogatePair;
    PairBits(units[i], units[i + 1]);
    assert units[i..][2..] == units[i + 2..];
  }

  lemma ConvertedSingle(units: seq<Unit>, i: nat)
    requires i < |units| && !(i + 1 < |units| && IsUtf16SurrogatePair(units[i], units[i + 1]))
    ensures Converted(units[i..]) == Encoded(Widen(units[i])) + Converted(units[i + 1..])
    ensures units[i] != 0 ==> Encodable(Widen(units[i]))
  {
    hide Encoded, IsUtf16SurrogatePair, Widen, Encodable;
    SingleBack(units[i]);
    assert units[i..][1..] == units[i + 1..];
  }

  lemma ZeroSecond(first: Unit)
    ensures !IsUtf16SurrogatePair(first, 0)
  {
  }

  lemma ProcessedFacts(str: seq<Unit>, numChars: int)
    requires 0 in str
    ensures var units, all := Processed(str, numChars), |Terminated(str, 0)|;
      && |units| < |str| && (forall k :: 0 <= k < |units| ==> units[k] == str[k] != 0)
      && (numChars == -1 || numChars > all ==> |units| == all && str[all] == 0)
      && (numChars != -1 && numChars <= all ==> |units| == if numChars < 0 then 0 else numChars)
  {
    TerminatedFacts(str, 0);
  }

  method WideStringToUtf8(str: seq<Unit>, numChars: int) returns (stream: seq<Byte>)
    requires 0 in str
    ensures stream == Converted(Processed(str, numChars))
  {
    hide Converted, Encoded, IsUtf16SurrogatePair, CreateCodePointFromUtf16SurrogatePair, Processed, Terminated;
    hide Widen, Encodable;
    ProcessedFacts(str, numChars);
    ghost var units := Processed(str, numChars);
    var count := if numChars == -1 then |Terminated(str, 0)| else numChars;
    stream := [];
    var i := 0;
    assert units[0..] == units;
    while i < count
      invariant i <= |units| && (i < count && i == |units| ==> str[i] == 0)
      invariant stream + Converted(units[i..]) == Converted(units)
    {
      var unicodeCodePoint: CodePoint;
      ghost var from := i;
      if str[i] == 0 {
        break;
      } else if i + 1 < count && IsUtf16SurrogatePair(str[i], str[i + 1]) {
        unicodeCodePoint := CreateCodePointFromUtf16SurrogatePair(str[i], str[i + 1]);
        ZeroSecond(str[i]);
        ConvertedPair(units, i);
        i := i + 1;
        assert Converted(units[from..]) == Encoded(unicodeCodePoint) + Converted(units[i + 1..]);
      } else {
        unicodeCodePoint := Widen(str[i]);
        ConvertedSingle(units, i);
        assert Converted(units[from..]) == Encoded(unicodeCodePoint) + Converted(units[i + 1..]);
      }
      var text := Narrow(unicodeCodePoint);
      OneMore(stream, text, units, from, i + 1);
      stream := stream + text;
      i := i + 1;
    }
    assert i == |units|;
    NothingLeft(units);
  }

  lemma OneMore(stream: seq<Byte>, bytes: seq<Byte>, units: seq<Unit>, i: nat, j: nat)
    requires i <= j <= |units| && stream + Converted(units[i..]) == Converted(units)
    requires Converted(units[i..]) == bytes + Converted(units[j..])
    ensures (stream + bytes) + Converted(units[j..]) == Converted(units)
  {
    hide Converted;
    assert stream + (bytes + Converted(units[j..])) == (stream + bytes) + Converted(units[j..]);
  }

  lemma NothingLeft(units: seq<Unit>)
    ensures Converted(units[|units|..]) == []
  {
  }
}
