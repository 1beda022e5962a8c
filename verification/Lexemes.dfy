/** The number texts and unicode escapes that the parser accepts, against the standards. */
module Lexemes {
  import opened Bytes
  import opened Unicode
  import opened Grammar
  import opened Numbers
  import opened Progress
  import opened Writer

  /** A number text cut into its parts: [ minus ] int [ frac ] [ exp ]. */
  datatype Parts = Parts(minus: bool, whole: bytes, frac: bytes, exp: bytes)

  predicate AreDigits(t: bytes) {
    forall b | b in t :: 0x30 <= b <= 0x39
  }

  /** int = zero / ( digit1-9 *DIGIT ) */
  predicate IsInt(t: bytes) {
    |t| > 0 && AreDigits(t) && (t[0] == 0x30 ==> |t| == 1)
  }

  /** frac = decimal-point 1*DIGIT */
  predicate IsFrac(t: bytes) {
    |t| >= 2 && t[0] == 0x2E && AreDigits(t[1..])
  }

  /** exp = e [ minus / plus ] 1*DIGIT */
  predicate IsExp(t: bytes) {
    && |t| >= 2 && (t[0] == 0x65 || t[0] == 0x45)
    && (AreDigits(t[1..]) || (|t| >= 3 && (t[1] == 0x2B || t[1] == 0x2D) && AreDigits(t[2..])))
  }

  function TextOf(p: Parts): bytes {
    (if p.minus then [0x2D] else []) + (p.whole + (p.frac + p.exp))
  }

  /** The numbers of section 6. */
  predicate IsStandard(p: Parts) {
    IsInt(p.whole) && (|p.frac| == 0 || IsFrac(p.frac)) && (|p.exp| == 0 || IsExp(p.exp))
  }

  /** What the parser takes besides: a minus sign alone, or followed directly by an exponent. */
  predicate IsExtra(p: Parts) {
    p.minus && |p.whole| == 0 && |p.frac| == 0 && (|p.exp| == 0 || IsExp(p.exp))
  }

  predicate IsAccepted(p: Parts) {
    IsStandard(p) || IsExtra(p)
  }

  /** The value the node gets: an integer exactly when there is neither a point nor an exponent. */
  function ValueOf(p: Parts): Json {
    if |p.frac| == 0 && |p.exp| == 0 then
      JInteger(Wrap64(SignedValue(p)))
    else JDouble
  }

  function SignedValue(p: Parts): int {
    var n: int := DecimalValue(p.whole);
    if p.minus then -n else n
  }

  /** The value is the signed decimal value whenever that fits in 64 bits. */
  lemma ExactValue(p: Parts)
    requires |p.frac| == 0 && |p.exp| == 0
    ensures ValueOf(p) == JInteger(SignedValue(p)) <==> -0x8000_0000_0000_0000 <= SignedValue(p) < 0x8000_0000_0000_0000
  {
    if -0x8000_0000_0000_0000 <= SignedValue(p) < 0x8000_0000_0000_0000 {
      WrapSame(SignedValue(p));
    }
  }

  // ----- every such text is accepted -----

  /** Where the parts of a number text stand. */
  lemma {:induction false} PartsAt(d: Doc, i: nat, p: Parts, a: nat, z: nat, f: nat, e: nat)
    requires TextAt(d, i, TextOf(p)) && IsAccepted(p)
    requires a == (if p.minus then i + 1 else i) && z == a + |p.whole| && f == z + |p.frac| && e == f + |p.exp|
    ensures TextAt(d, a, p.whole) && TextAt(d, z, p.frac) && TextAt(d, f, p.exp) && e <= |d.text|
    ensures i < |d.text| && NumberAt(d, i) && a == First(d, i)
  {
    if p.minus {
      TextParts(d, i, [MINUS], p.whole + (p.frac + p.exp), a);
    } else {
      assert [] + (p.whole + (p.frac + p.exp)) == p.whole + (p.frac + p.exp);
    }
    TextParts(d, a, p.whole, p.frac + p.exp, z);
    TextParts(d, z, p.frac, p.exp, f);
    TextIs(d, f, p.exp);
    if p.minus {
      StartsAt(d, i, [MINUS]);
    } else {
      StartsAt(d, i, p.whole);
      assert p.whole[0] in p.whole;
    }
  }

  /** The end of a run of digits, which may be empty. */
  lemma {:induction false} RunAt(d: Doc, a: nat, t: bytes, z: nat)
    requires TextAt(d, a, t) && AreDigits(t) && z == a + |t| && !IsDigit(At(d, z))
    ensures z <= |d.text| && DigitsEnd(d, a) == z && d.text[a..z] == t
  {
    TextIs(d, a, t);
    if |t| > 0 {
      DigitsAt(d, a, t, z);
    }
  }

  lemma {:induction false} ExponentAt(d: Doc, f: nat, t: bytes, e: nat)
    requires TextAt(d, f, t) && (|t| == 0 || IsExp(t)) && e == f + |t| && Stops(d, e)
    ensures f <= |d.text| && ExponentEnd(d, f) == Some(e)
    ensures |t| > 0 ==> IsExponentMark(At(d, f))
  {
    if |t| > 0 {
      TextIs(d, f, t);
      assert d.text[f] == t[0];
      assert d.text[f + 1] == d.text[f..e][1] == t[1];
      var k := if IsSign(t[1]) then 2 else 1;
      assert t == t[..k] + t[k..];
      TextParts(d, f, t[..k], t[k..], f + k);
      assert AreDigits(t[k..]) by {
        assert IsSign(t[1]) ==> t[1] in t[1..];
      }
      assert !IsSign(t[1]) || |t| >= 3 by {
        assert t[1] in t[1..];
      }
      RunAt(d, f + k, t[k..], e);
      assert ExponentDigits(d, f) == f + k;
    }
  }

  lemma {:induction false} FractionAt(d: Doc, a: nat, z: nat, t: bytes, f: nat)
    requires a <= z <= |d.text| && TextAt(d, z, t) && (|t| == 0 || IsFrac(t)) && f == z + |t|
    requires !IsDigit(At(d, f)) && At(d, f) != DOT && (|t| > 0 ==> a < z)
    ensures f <= |d.text| && FractionEnd(d, a, z) == Some(f)
    ensures !IsDigit(At(d, z))
  {
    TextIs(d, z, t);
    if |t| > 0 {
      assert t == t[..1] + t[1..];
      TextParts(d, z, t[..1], t[1..], z + 1);
      RunAt(d, z + 1, t[1..], f);
    }
  }

  /** Every accepted text is read to its end, with its value. */
  lemma {:induction false} NumberAccepts(d: Doc, i: nat, p: Parts, end: nat)
    requires IsAccepted(p) && TextAt(d, i, TextOf(p)) && end == i + |TextOf(p)| && Stops(d, end)
    ensures NumberAt(d, i) && Number(d, i) == Ok(ValueOf(p), end)
  {
    var a := if p.minus then i + 1 else i;
    var z := a + |p.whole|;
    var f := z + |p.frac|;
    PartsAt(d, i, p, a, z, f, end);
    ExponentAt(d, f, p.exp, end);
    TextIs(d, a, p.whole);
    FractionAt(d, a, z, p.frac, f);
    RunAt(d, a, p.whole, z);
    NumberFrom(d, i, p, a, z, f, end);
  }

  lemma {:induction false} NumberFrom(d: Doc, i: nat, p: Parts, a: nat, z: nat, f: nat, end: nat)
    requires IsAccepted(p) && NumberAt(d, i) && a == First(d, i) && a <= z <= f <= end <= |d.text|
    requires p.minus == (d.text[i] == MINUS) && DigitsEnd(d, a) == z && d.text[a..z] == p.whole
    requires FractionEnd(d, a, z) == Some(f) && ExponentEnd(d, f) == Some(end) && Stops(d, end)
    requires f == z + |p.frac| && end == f + |p.exp|
    ensures Number(d, i) == Ok(ValueOf(p), end)
  {
    if z - a >= 2 {
      assert d.text[a] == d.text[a..z][0] == p.whole[0];
    }
  }

  // ----- nothing else is accepted -----

  lemma {:induction false} RunIsDigits(d: Doc, a: nat, z: nat)
    requires a <= |d.text| && z == DigitsEnd(d, a)
    ensures AreDigits(d.text[a..z]) && TextAt(d, a, d.text[a..z])
  {
    DigitsAreDigits(d, a);
    IsText(d, a, d.text[a..z]);
  }

  lemma FractionShape(d: Doc, a: nat, z: nat, f: nat)
    requires a <= z <= |d.text| && FractionEnd(d, a, z) == Some(f)
    ensures f > z ==> IsFrac(d.text[z..f]) && z > a
  {
    if f > z {
      RunIsDigits(d, z + 1, f);
      assert d.text[z..f][1..] == d.text[z + 1..f];
    }
  }

  lemma ExponentShape(d: Doc, f: nat, e: nat)
    requires f <= |d.text| && ExponentEnd(d, f) == Some(e)
    ensures e > f ==> IsExp(d.text[f..e])
  {
    if e > f {
      var g := ExponentDigits(d, f);
      RunIsDigits(d, g, e);
      assert d.text[f..e][g - f..] == d.text[g..e];
    }
  }

  lemma NumberEnds(d: Doc, i: nat, a: nat, z: nat, end: nat) returns (f: nat)
    requires NumberAt(d, i) && Number(d, i).Ok? && Number(d, i).next == end
    requires a == First(d, i) && z == DigitsEnd(d, a)
    ensures a <= z <= f <= end <= |d.text|
    ensures FractionEnd(d, a, z) == Some(f) && ExponentEnd(d, f) == Some(end)
    ensures z - a >= 2 ==> d.text[a] != ZERO
  {
    f := FractionEnd(d, a, z).value;
  }

  lemma FourSlices(t: bytes, i: nat, a: nat, z: nat, f: nat, e: nat)
    requires i <= a <= z <= f <= e <= |t|
    ensures t[i..e] == t[i..a] + (t[a..z] + (t[z..f] + t[f..e]))
  {
  }

  /** What is accepted has one of the two shapes. */
  lemma NumberShape(d: Doc, i: nat) returns (p: Parts)
    requires NumberAt(d, i) && Number(d, i).Ok?
    ensures IsAccepted(p) && TextOf(p) == d.text[i..Number(d, i).next]
    ensures Number(d, i).value == ValueOf(p)
  {
    var a, end := First(d, i), Number(d, i).next;
    var z := DigitsEnd(d, a);
    var f := NumberEnds(d, i, a, z, end);
    p := Parts(d.text[i] == MINUS, d.text[a..z], d.text[z..f], d.text[f..end]);
    RunIsDigits(d, a, z);
    FractionShape(d, a, z, f);
    ExponentShape(d, f, end);
    FourSlices(d.text, i, a, z, f, end);
    assert d.text[i..a] == if p.minus then [MINUS] else [];
    PartsAccepted(d, i, p, a, z);
    NumberValueIs(d, i, p, a, z, f, end);
  }

  lemma {:induction false} PartsAccepted(d: Doc, i: nat, p: Parts, a: nat, z: nat)
    requires NumberAt(d, i) && a == First(d, i) && z == DigitsEnd(d, a) && p.minus == (d.text[i] == MINUS)
    requires p.whole == d.text[a..z] && AreDigits(p.whole) && (z - a >= 2 ==> d.text[a] != ZERO)
    requires (|p.frac| > 0 ==> IsFrac(p.frac) && z > a) && (|p.exp| > 0 ==> IsExp(p.exp))
    ensures IsAccepted(p)
  {
    if z > a {
      assert p.whole[0] == d.text[a];
    } else {
      assert p.minus;
    }
  }

  lemma {:induction false} NumberValueIs(d: Doc, i: nat, p: Parts, a: nat, z: nat, f: nat, end: nat)
    requires NumberAt(d, i) && Number(d, i).Ok? && Number(d, i).next == end
    requires a == First(d, i) && z == DigitsEnd(d, a) && a <= z <= f <= end <= |d.text|
    requires p.minus == (d.text[i] == MINUS) && p.whole == d.text[a..z] && |p.frac| == f - z && |p.exp| == end - f
    requires FractionEnd(d, a, z) == Some(f) && ExponentEnd(d, f) == Some(end)
    ensures Number(d, i).value == ValueOf(p)
  {
  }

  /** The number automaton accepts exactly the numbers of section 6 of RFC 8259, a lone minus sign, and a
      minus sign directly before an exponent. */
  lemma NumberLanguage(d: Doc, i: nat, end: nat)
    requires i < end <= |d.text| && NumberAt(d, i) && Stops(d, end)
    ensures Number(d, i).Ok? && Number(d, i).next == end
            <==> exists p: Parts :: IsAccepted(p) && TextOf(p) == d.text[i..end]
  {
    if Number(d, i).Ok? && Number(d, i).next == end {
      var p := NumberShape(d, i);
    }
    if p: Parts :| IsAccepted(p) && TextOf(p) == d.text[i..end] {
      IsText(d, i, TextOf(p));
      NumberAccepts(d, i, p, end);
    }
  }

  // ----- unicode escapes -----

  /** Every \\u escape that is accepted writes well-formed UTF-8 that decodes back to its character. */
  lemma EscapeIsUtf8(d: Doc, i: nat)
    requires EscapedChar(d, i).Ok?
    ensures var u := EscapedChar(d, i).value;
      IsUtf8Char(Encode(u)) && Decode(Encode(u)) == u
  {
    var u := EscapedChar(d, i).value;
    UnitRange(d, i);
    if IsSurrogate(UnitAt(d, i)) {
      JoinPairRange(UnitAt(d, i), UnitAt(d, i + 6));
    }
    EncodeDecodes(u);
  }

  lemma UnitRange(d: Doc, i: nat)
    requires HexAt(d, i)
    ensures UnitAt(d, i) <= 0xFFFF
    ensures IsSurrogate(UnitAt(d, i)) <==> 0xD800 <= UnitAt(d, i) <= 0xDFFF
  {
    CodeUnitRange(HexValue(d.text[i]), HexValue(d.text[i + 1]), HexValue(d.text[i + 2]), HexValue(d.text[i + 3]));
  }

  /** An escaped pair of a high and a low surrogate gives the character that section 2.2 of RFC 2781 assigns
      to it exactly when bit 6 of the high surrogate is 0. */
  lemma EscapedPair(d: Doc, i: nat)
    requires HexAt(d, i) && 0xD800 <= UnitAt(d, i) <= 0xDBFF
    requires At(d, i + 4) == BACKSLASH && At(d, i + 5) == 0x75
    requires HexAt(d, i + 6) && 0xDC00 <= UnitAt(d, i + 6) <= 0xDFFF
    ensures EscapedChar(d, i).Ok? && EscapedChar(d, i).next == i + 10
    ensures EscapedChar(d, i).value == PairValue(UnitAt(d, i), UnitAt(d, i + 6)) <==> UnitAt(d, i) & 0x40 == 0
  {
    UnitRange(d, i);
    JoinPairIsPairValue(UnitAt(d, i), UnitAt(d, i + 6));
  }

  /** The text of an escaped pair: \uD840\uDC00. */
  const PAIR_TEXT: bytes := [BACKSLASH, 0x75, 0x44, 0x38, 0x34, 0x30, BACKSLASH, 0x75, 0x44, 0x43, 0x30, 0x30]

  /** A pair that is read as another character than the standard's. */
  lemma PairMisread()
    ensures EscapedChar(Doc(PAIR_TEXT, false), 2) == Ok(0x1_0000, 12) && PairValue(0xD840, 0xDC00) == 0x2_0000
  {
    var d := Doc(PAIR_TEXT, false);
    assert UnitAt(d, 2) == 0xD840 && UnitAt(d, 8) == 0xDC00;
  }
}
