/** The texts that the parser accepts, as a grammar over the characters themselves. */
module Language {
  import opened Bytes
  import opened Unicode
  import opened Grammar
  import opened Numbers
  import opened Progress
  import opened Lexemes
  import opened Writer

  // The definitions below use character codes.  `strict` leaves only what section 2 to 7 of RFC 8259 allow, with
  // escaped surrogates in pairs.

  // ----- white space and comments -----

  predicate White(b: byte) {
    b == 0x20 || b == 0x09 || b == 0x0A || b == 0x0D
  }

  /** A line comment's text runs from `p` to `k`, where a line break or a NUL stands or the text ends. */
  predicate LineTo(d: Doc, p: nat, k: nat)
    requires p <= k <= |d.text|
  {
    && (forall i | p <= i < k :: d.text[i] != 0x0A && d.text[i] != 0x0D && d.text[i] != 0x00)
    && (k == |d.text| || d.text[k] == 0x0A || d.text[k] == 0x0D || d.text[k] == 0x00)
  }

  /** A block comment's text runs from `p` to the first closing mark, which ends before `k`. */
  predicate BlockTo(d: Doc, p: nat, k: nat)
    requires p + 2 <= k <= |d.text|
  {
    && d.text[k - 2] == 0x2A && d.text[k - 1] == 0x2F
    && (forall i | p <= i < k - 2 :: d.text[i] != 0x00 && !(d.text[i] == 0x2A && d.text[i + 1] == 0x2F))
  }

  /** From `a` to `b` there is white space, and comments where they are enabled. */
  ghost predicate Gap(d: Doc, a: nat, b: nat)
    requires a <= b <= |d.text|
    decreases b - a
  {
    || a == b
    || (White(d.text[a]) && Gap(d, a + 1, b))
    || (d.comments && a + 2 <= b && d.text[a] == 0x2F && d.text[a + 1] == 0x2F
        && exists k: nat :: a + 2 <= k <= b && LineTo(d, a + 2, k) && Gap(d, k, b))
    || (d.comments && a + 4 <= b && d.text[a] == 0x2F && d.text[a + 1] == 0x2A
        && exists k: nat :: a + 4 <= k <= b && BlockTo(d, a + 2, k) && Gap(d, k, b))
  }

  // ----- strings -----

  predicate Hex(b: byte) {
    0x30 <= b <= 0x39 || 0x41 <= b <= 0x46 || 0x61 <= b <= 0x66
  }

  /** The value of a hexadecimal digit in either case. */
  function HexOf(b: byte): bv32 {
    if b <= 0x39 then (b as bv32) - 0x30 else if b <= 0x46 then (b as bv32) - 0x37 else (b as bv32) - 0x57
  }

  /** Four hexadecimal digits stand at `p`. */
  predicate Four(d: Doc, p: nat) {
    p + 4 <= |d.text| && forall k | p <= k < p + 4 :: Hex(d.text[k])
  }

  /** The unit that four digits write. */
  function UnitOf(b1: byte, b2: byte, b3: byte, b4: byte): bv32 {
    (HexOf(b1) << 12) | (HexOf(b2) << 8) | (HexOf(b3) << 4) | HexOf(b4)
  }

  function FourOf(d: Doc, p: nat): bv32
    requires p + 4 <= |d.text|
  {
    UnitOf(d.text[p], d.text[p + 1], d.text[p + 2], d.text[p + 3])
  }

  /** The character of a pair of units: their parts are joined with OR. */
  function Joined(u: bv32, l: bv32): bv32 {
    0x1_0000 | ((u & 0x3FF) << 10) | (l & 0x3FF)
  }

  /** The character of a one-letter escape. */
  function LetterOf(c: byte): byte {
    match c
    case 0x62 => 0x08
    case 0x66 => 0x0C
    case 0x6E => 0x0A
    case 0x72 => 0x0D
    case 0x74 => 0x09
    case _ => c
  }

  /** The letters that may follow a backslash. */
  predicate Escapable(c: byte, strict: bool) {
    if strict then c in [0x22, 0x5C, 0x2F, 0x62, 0x66, 0x6E, 0x72, 0x74] else c != 0x00 && c != 0x75
  }

  /** The rest of a string, from `i` to the closing quote before `j`, has the content `s`. */
  predicate Str(d: Doc, i: nat, j: nat, s: bytes, strict: bool)
    requires j <= |d.text|
    decreases if i < j then j - i else 0
  {
    i < j &&
    var b := d.text[i];
    if b == 0x22 then j == i + 1 && s == []
    else if b != 0x5C then
      b != 0x00 && (strict ==> b >= 0x20) && |s| > 0 && s[0] == b && Str(d, i + 1, j, s[1..], strict)
    else
      i + 1 < j &&
      var c := d.text[i + 1];
      if c != 0x75 then
        Escapable(c, strict) && |s| > 0 && s[0] == LetterOf(c) && Str(d, i + 2, j, s[1..], strict)
      else
        Four(d, i + 2) &&
        var u := FourOf(d, i + 2);
        if u < 0xD800 || u > 0xDFFF then Encode(u) <= s && Str(d, i + 6, j, s[|Encode(u)|..], strict)
        else
          i + 7 < |d.text| && d.text[i + 6] == 0x5C && d.text[i + 7] == 0x75 && Four(d, i + 8) &&
          var l := FourOf(d, i + 8);
          var w := Joined(u, l);
          && (strict ==> u <= 0xDBFF && 0xDC00 <= l <= 0xDFFF)
          && Encode(w) <= s && Str(d, i + 12, j, s[|Encode(w)|..], strict)
  }

  // ----- numbers -----

  function TenTo(n: nat): nat {
    if n == 0 then 1 else 10 * TenTo(n - 1)
  }

  function DigitOf(b: byte): nat {
    if 0x30 <= b <= 0x39 then (b - 0x30) as nat else 0
  }

  /** What digits write: each counts by its place. */
  function PlaceValue(t: bytes): int {
    if |t| == 0 then 0 else DigitOf(t[0]) * TenTo(|t| - 1) + PlaceValue(t[1..])
  }

  /** A number without point and exponent is an integer, which wraps around at 64 bits; any other is a double. */
  predicate NumberIs(p: Parts, v: Json) {
    if |p.frac| == 0 && |p.exp| == 0 then
      && v.JInteger? && -0x8000_0000_0000_0000 <= v.n < 0x8000_0000_0000_0000
      && (v.n - if p.minus then -PlaceValue(p.whole) else PlaceValue(p.whole)) % 0x1_0000_0000_0000_0000 == 0
    else v.JDouble?
  }

  // ----- values -----

  /** Where in a container the text goes on: at its start, behind an item, or behind a comma. */
  datatype Place = First | Behind | Comma

  /** From `i` to `j` the text is a text of the value. */
  ghost predicate Denotes(d: Doc, i: nat, j: nat, v: Json, strict: bool)
    requires i <= j <= |d.text|
    decreases v, 0, 0
  {
    i < j &&
    match v
    case JNull => d.text[i..j] == [0x6E, 0x75, 0x6C, 0x6C]
    case JBool(b) => d.text[i..j] == if b then [0x74, 0x72, 0x75, 0x65] else [0x66, 0x61, 0x6C, 0x73, 0x65]
    case JString(s) => d.text[i] == 0x22 && Str(d, i + 1, j, s, strict) && |s| <= 0xFFFF_FFF7
    case JArray(items) => d.text[i] == 0x5B && |items| <= 0xFFFF_FFF7 && ItemsTo(d, i + 1, j, items, First, strict)
    case JObject(names, items) =>
      && d.text[i] == 0x7B && |items| <= 0xFFFF_FFF7 && |names| == |items|
      && MembersTo(d, i + 1, j, names, items, First, strict)
    case _ =>
      && (d.comments && j < |d.text| ==> d.text[j] != 0x2F)
      && exists p: Parts ::
           TextOf(p) == d.text[i..j] && NumberIs(p, v) && if strict then IsStandard(p) else IsAccepted(p)
  }

  /** The rest of an array, up to and with its bracket. */
  ghost predicate ItemsTo(d: Doc, i: nat, j: nat, items: seq<Json>, at: Place, strict: bool)
    requires j <= |d.text|
    decreases items, if i < j then j - i else 0, 1
  {
    exists k: nat :: i <= k < j && Gap(d, i, k) && ItemsAt(d, k, j, items, at, strict)
  }

  ghost predicate ItemsAt(d: Doc, k: nat, j: nat, items: seq<Json>, at: Place, strict: bool)
    requires k < j <= |d.text|
    decreases items, j - k, 0
  {
    || (d.text[k] == 0x5D && j == k + 1 && items == [] && !(strict && at == Comma))
    || (d.text[k] == 0x2C && at == Behind && ItemsTo(d, k + 1, j, items, Comma, strict))
    || (at != Behind && |items| > 0 && ItemThen(d, k, j, items, strict))
  }

  /** An item and the rest of its array. */
  ghost predicate ItemThen(d: Doc, k: nat, j: nat, items: seq<Json>, strict: bool)
    requires j <= |d.text| && |items| > 0
    decreases items, 0, 2
  {
    exists m: nat :: k <= m <= j && Denotes(d, k, m, items[0], strict) && ItemsTo(d, m, j, items[1..], Behind, strict)
  }

  /** The rest of an object, up to and with its brace. */
  ghost predicate MembersTo(d: Doc, i: nat, j: nat, names: seq<bytes>, items: seq<Json>, at: Place, strict: bool)
    requires j <= |d.text| && |names| == |items|
    decreases items, if i < j then j - i else 0, 1
  {
    exists k: nat :: i <= k < j && Gap(d, i, k) && MembersAt(d, k, j, names, items, at, strict)
  }

  ghost predicate MembersAt(d: Doc, k: nat, j: nat, names: seq<bytes>, items: seq<Json>, at: Place, strict: bool)
    requires k < j <= |d.text| && |names| == |items|
    decreases items, j - k, 0
  {
    || (d.text[k] == 0x7D && j == k + 1 && items == [] && !(strict && at == Comma))
    || (d.text[k] == 0x2C && at == Behind && MembersTo(d, k + 1, j, names, items, Comma, strict))
    || (at != Behind && |items| > 0 && d.text[k] == 0x22 && MemberThen(d, k + 1, j, names, items, strict))
  }

  /** A name, from inside its quotes, its colon and value, and the rest of the object. */
  ghost predicate MemberThen(d: Doc, k: nat, j: nat, names: seq<bytes>, items: seq<Json>, strict: bool)
    requires j <= |d.text| && |names| == |items| > 0
    decreases items, 0, 1
  {
    exists m: nat, c: nat ::
      && k <= m <= c < j && Str(d, k, m, names[0], strict) && |names[0]| <= 0xFFFF_FFF7 && Gap(d, m, c)
      && d.text[c] == 0x3A && ColonThen(d, c + 1, j, names, items, strict)
  }

  ghost predicate ColonThen(d: Doc, c: nat, j: nat, names: seq<bytes>, items: seq<Json>, strict: bool)
    requires j <= |d.text| && |names| == |items| > 0
    decreases items, 0, 0
  {
    exists a: nat, m: nat ::
      && c <= a <= m <= j && Gap(d, c, a) && Denotes(d, a, m, items[0], strict)
      && MembersTo(d, m, j, names[1..], items[1..], Behind, strict)
  }

  /** The text is one of the value: white space, the value, white space, and then the end or, unless `strict`,
      a NUL. */
  ghost predicate Spells(d: Doc, v: Json, strict: bool) {
    exists i: nat, j: nat, k: nat ::
      && i <= j <= k <= |d.text| && Gap(d, 0, i) && Denotes(d, i, j, v, strict) && Gap(d, j, k)
      && (k == |d.text| || (!strict && d.text[k] == 0x00))
  }

  /** The text without a UTF-8 byte-order mark. */
  function Unmarked(text: bytes): bytes {
    if [0xEF, 0xBB, 0xBF] <= text then text[3..] else text
  }

  // ----- white space and comments: the parser's skip -----

  /** Nothing more can be skipped at `b`. */
  predicate Stands(d: Doc, b: nat)
    requires b <= |d.text|
  {
    b == |d.text| || (!White(d.text[b]) && !(d.comments && d.text[b] == 0x2F))
  }

  lemma {:induction false} LineEnds(d: Doc, p: nat)
    requires p <= |d.text|
    ensures LineTo(d, p, LineEnd(d, p))
    decreases |d.text| - p
  {
    if p < |d.text| && At(d, p) != CR && At(d, p) != LF && At(d, p) != NUL {
      LineEnds(d, p + 1);
    }
  }

  lemma {:induction false} LineIs(d: Doc, p: nat, k: nat)
    requires p <= k <= |d.text| && LineTo(d, p, k)
    ensures LineEnd(d, p) == k
    decreases k - p
  {
    if p < k {
      LineIs(d, p + 1, k);
    }
  }

  lemma {:induction false} BlockEnds(d: Doc, p: nat)
    requires p <= |d.text| && BlockEnd(d, p).Some?
    ensures p + 2 <= BlockEnd(d, p).value && BlockTo(d, p, BlockEnd(d, p).value)
    decreases |d.text| - p
  {
    if !(At(d, p) == STAR && p + 1 < |d.text| && d.text[p + 1] == SLASH) {
      BlockEnds(d, p + 1);
    }
  }

  lemma {:induction false} BlockIs(d: Doc, p: nat, k: nat)
    requires p + 2 <= k <= |d.text| && BlockTo(d, p, k)
    ensures BlockEnd(d, p) == Some(k)
    decreases k - p
  {
    if p + 2 < k {
      BlockIs(d, p + 1, k);
    }
  }

  /** What is skipped is a gap, and nothing more could be skipped. */
  lemma {:induction false} SkipGap(d: Doc, a: nat)
    requires a <= |d.text| && Skip(d, a).Some?
    ensures Gap(d, a, Skip(d, a).value) && Stands(d, Skip(d, a).value)
    decreases |d.text| - a
  {
    if a < |d.text| {
      if IsSpace(d.text[a]) {
        SkipGap(d, a + 1);
      } else if d.comments && d.text[a] == SLASH {
        if At(d, a + 1) == SLASH {
          LineEnds(d, a + 2);
          SkipGap(d, LineEnd(d, a + 2));
        } else {
          BlockEnds(d, a + 2);
          SkipGap(d, BlockEnd(d, a + 2).value);
        }
      }
    }
  }

  /** A gap behind which nothing more can be skipped is skipped. */
  lemma {:induction false} GapSkip(d: Doc, a: nat, b: nat)
    requires a <= b <= |d.text| && Gap(d, a, b) && Stands(d, b)
    ensures Skip(d, a) == Some(b)
    decreases b - a
  {
    if a == b {
    } else if White(d.text[a]) && Gap(d, a + 1, b) {
      GapSkip(d, a + 1, b);
    } else if d.text[a + 1] == 0x2F {
      var k: nat :| a + 2 <= k <= b && LineTo(d, a + 2, k) && Gap(d, k, b);
      LineIs(d, a + 2, k);
      GapSkip(d, k, b);
    } else {
      var k: nat :| a + 4 <= k <= b && BlockTo(d, a + 2, k) && Gap(d, k, b);
      BlockIs(d, a + 2, k);
      GapSkip(d, k, b);
    }
  }

  /** White space and comments: what the parser skips is exactly the longest gap. */
  lemma {:induction false} SkipExactly(d: Doc, a: nat, b: nat)
    requires a <= b <= |d.text|
    ensures Skip(d, a) == Some(b) <==> Gap(d, a, b) && Stands(d, b)
  {
    if Skip(d, a) == Some(b) {
      SkipGap(d, a);
    } else if Gap(d, a, b) && Stands(d, b) {
      GapSkip(d, a, b);
    }
  }

  /** A gap does not begin with a character of a number. */
  lemma {:induction false} GapBegins(d: Doc, a: nat, b: nat)
    requires a <= b <= |d.text| && Gap(d, a, b) && !IsNumberChar(At(d, b))
    ensures !IsNumberChar(At(d, a)) && (At(d, a) == SLASH ==> At(d, b) == SLASH || d.comments)
  {
  }

  // ----- strings -----

  lemma HexIs(b: byte)
    ensures HexValue(b) != 0xFF <==> Hex(b)
    ensures Hex(b) ==> HexValue(b) <= 15 && HexValue(b) as bv32 == HexOf(b)
  {
  }

  lemma UnitSum(h1: byte, h2: byte, h3: byte, h4: byte)
    requires h1 <= 15 && h2 <= 15 && h3 <= 15 && h4 <= 15
    ensures CodeUnit(h1, h2, h3, h4)
            == (h1 as bv32 << 12) | (h2 as bv32 << 8) | (h3 as bv32 << 4) | (h4 as bv32)
  {
  }

  lemma {:induction false} UnitIs(b1: byte, b2: byte, b3: byte, b4: byte)
    requires Hex(b1) && Hex(b2) && Hex(b3) && Hex(b4)
    ensures CodeUnit(HexValue(b1), HexValue(b2), HexValue(b3), HexValue(b4)) == UnitOf(b1, b2, b3, b4)
  {
    HexIs(b1);
    HexIs(b2);
    HexIs(b3);
    HexIs(b4);
    UnitSum(HexValue(b1), HexValue(b2), HexValue(b3), HexValue(b4));
  }

  lemma {:induction false} FourHex(d: Doc, p: nat)
    ensures HexAt(d, p) <==> Four(d, p)
  {
    if p + 4 <= |d.text| {
      HexIs(d.text[p]);
      HexIs(d.text[p + 1]);
      HexIs(d.text[p + 2]);
      HexIs(d.text[p + 3]);
      assert (forall k | p <= k < p + 4 :: Hex(d.text[k]))
        <==> Hex(d.text[p]) && Hex(d.text[p + 1]) && Hex(d.text[p + 2]) && Hex(d.text[p + 3]);
    }
  }

  lemma {:induction false} FourUnit(d: Doc, p: nat)
    requires Four(d, p) && HexAt(d, p)
    ensures UnitAt(d, p) == FourOf(d, p)
  {
    UnitIs(d.text[p], d.text[p + 1], d.text[p + 2], d.text[p + 3]);
  }

  /** Four hexadecimal digits and their unit. */
  lemma {:induction false} FourIs(d: Doc, p: nat)
    ensures HexAt(d, p) <==> Four(d, p)
    ensures Four(d, p) ==> UnitAt(d, p) == FourOf(d, p)
    ensures Four(d, p) ==> (IsSurrogate(UnitAt(d, p)) <==> 0xD800 <= UnitAt(d, p) <= 0xDFFF)
  {
    FourHex(d, p);
    if Four(d, p) {
      FourUnit(d, p);
      UnitRange(d, p);
    }
  }

  lemma LetterIs(c: byte)
    ensures Unescape(c) == LetterOf(c)
  {
  }

  lemma {:induction false} TakeFront(acc: bytes, e: bytes, full: bytes)
    requires acc + e <= full
    ensures e <= full[|acc|..] && full[|acc|..][|e|..] == full[|acc + e|..]
  {
    assert full[|acc|..][..|e|] == (acc + e)[|acc|..] == e;
  }

  lemma JoinedIs(u: bv32, l: bv32)
    ensures JoinPair(u, l) == Joined(u, l)
  {
  }

  /** One unit, or a pair of units joined with OR. */
  lemma {:induction false} EscapeIs(d: Doc, p: nat)
    ensures EscapedChar(d, p).Ok?
            <==> Four(d, p) && (FourOf(d, p) < 0xD800 || FourOf(d, p) > 0xDFFF
                                || (p + 5 < |d.text| && d.text[p + 4] == 0x5C && d.text[p + 5] == 0x75
                                    && Four(d, p + 6)))
    ensures EscapedChar(d, p).Ok? ==>
              EscapedChar(d, p) == if FourOf(d, p) < 0xD800 || FourOf(d, p) > 0xDFFF then Ok(FourOf(d, p), p + 4)
                                   else Ok(Joined(FourOf(d, p), FourOf(d, p + 6)), p + 10)
  {
    FourIs(d, p);
    FourIs(d, p + 6);
    if Four(d, p) && Four(d, p + 6) {
      JoinedIs(FourOf(d, p), FourOf(d, p + 6));
    }
  }

  lemma {:induction false} StrUnit(d: Doc, i: nat, j: nat, s: bytes, u: bv32)
    requires i + 1 < j <= |d.text| && d.text[i] == 0x5C && d.text[i + 1] == 0x75
    requires Four(d, i + 2) && u == FourOf(d, i + 2) && (u < 0xD800 || u > 0xDFFF)
    requires Encode(u) <= s && Str(d, i + 6, j, s[|Encode(u)|..], false)
    ensures Str(d, i, j, s, false)
  {
  }

  lemma {:induction false} StrPair(d: Doc, i: nat, j: nat, s: bytes, u: bv32, l: bv32, w: bv32)
    requires i + 1 < j <= |d.text| && d.text[i] == 0x5C && d.text[i + 1] == 0x75
    requires Four(d, i + 2) && u == FourOf(d, i + 2) && 0xD800 <= u <= 0xDFFF
    requires i + 7 < |d.text| && d.text[i + 6] == 0x5C && d.text[i + 7] == 0x75 && Four(d, i + 8)
    requires l == FourOf(d, i + 8) && w == Joined(u, l)
    requires Encode(w) <= s && Str(d, i + 12, j, s[|Encode(w)|..], false)
    ensures Str(d, i, j, s, false)
  {
  }

  lemma {:induction false} SingleEscape(d: Doc, p: nat, u: bv32, next: nat)
    requires EscapedChar(d, p) == Ok(u, next) && !IsSurrogate(UnitAt(d, p))
    ensures Four(d, p) && u == FourOf(d, p) && (u < 0xD800 || u > 0xDFFF) && next == p + 4
  {
    FourIs(d, p);
  }

  lemma {:induction false} PairEscape(d: Doc, p: nat, u: bv32, next: nat)
    requires EscapedChar(d, p) == Ok(u, next) && IsSurrogate(UnitAt(d, p))
    ensures Four(d, p) && 0xD800 <= FourOf(d, p) <= 0xDFFF && next == p + 10
    ensures p + 5 < |d.text| && d.text[p + 4] == 0x5C && d.text[p + 5] == 0x75 && Four(d, p + 6)
    ensures u == Joined(FourOf(d, p), FourOf(d, p + 6))
  {
    FourIs(d, p);
    FourIs(d, p + 6);
    JoinedIs(FourOf(d, p), FourOf(d, p + 6));
  }

  lemma {:induction false} StrEscape(d: Doc, i: nat, j: nat, s: bytes, u: bv32, next: nat)
    requires i + 1 < j <= |d.text| && d.text[i] == 0x5C && d.text[i + 1] == 0x75
    requires EscapedChar(d, i + 2) == Ok(u, next) && Encode(u) <= s && Str(d, next, j, s[|Encode(u)|..], false)
    ensures Str(d, i, j, s, false)
  {
    if IsSurrogate(UnitAt(d, i + 2)) {
      PairEscape(d, i + 2, u, next);
      StrPair(d, i, j, s, FourOf(d, i + 2), FourOf(d, i + 8), u);
    } else {
      SingleEscape(d, i + 2, u, next);
      StrUnit(d, i, j, s, u);
    }
  }

  /** The content that is read is that of the grammar. */
  lemma {:induction false} StrSound(d: Doc, i: nat, acc: bytes, full: bytes, j: nat)
    requires i <= |d.text| && Chars(d, i, acc, false) == Ok(full, j)
    ensures j <= |d.text| && |full| <= UINT_LIMIT && acc <= full && Str(d, i, j, full[|acc|..], false)
    decreases |d.text| - i
  {
    var b := d.text[i];
    if b == QUOTE {
    } else if b != BACKSLASH {
      StrSound(d, i + 1, acc + [b], full, j);
      TakeFront(acc, [b], full);
    } else {
      var c := d.text[i + 1];
      if c != 0x75 {
        LetterIs(c);
        StrSound(d, i + 2, acc + [LetterOf(c)], full, j);
        TakeFront(acc, [LetterOf(c)], full);
      } else {
        EscapeIs(d, i + 2);
        var e := EscapedChar(d, i + 2);
        StrSound(d, e.next, acc + Encode(e.value), full, j);
        TakeFront(acc, Encode(e.value), full);
        StrEscape(d, i, j, full[|acc|..], e.value, e.next);
      }
    }
  }

  lemma {:induction false} Appended(acc: bytes, e: bytes, s: bytes)
    requires e <= s
    ensures acc + s == (acc + e) + s[|e|..]
  {
  }

  /** The content of the grammar is what is read. */
  lemma {:induction false} StrComplete(d: Doc, i: nat, j: nat, s: bytes, acc: bytes)
    requires j <= |d.text| && Str(d, i, j, s, false) && |acc| + |s| <= UINT_LIMIT
    ensures Chars(d, i, acc, false) == Ok(acc + s, j)
    decreases |s|, j - i
  {
    var b := d.text[i];
    if b == 0x22 {
      assert acc + s == acc;
    } else if b != 0x5C {
      StrComplete(d, i + 1, j, s[1..], acc + [b]);
      Appended(acc, [b], s);
    } else {
      var c := d.text[i + 1];
      if c != 0x75 {
        LetterIs(c);
        StrComplete(d, i + 2, j, s[1..], acc + [LetterOf(c)]);
        Appended(acc, [LetterOf(c)], s);
      } else {
        EscapeIs(d, i + 2);
        var e := EscapedChar(d, i + 2);
        StrComplete(d, e.next, j, s[|Encode(e.value)|..], acc + Encode(e.value));
        Appended(acc, Encode(e.value), s);
      }
    }
  }

  // ----- every value that is read is denoted by its text -----

  lemma DigitIs(b: byte)
    ensures IsDigit(b) ==> DigitValue(b) == DigitOf(b)
  {
  }

  lemma TimesTen(a: int, b: int)
    ensures a * (10 * b) == a * b * 10
  {
  }

  lemma {:induction false} PlaceLast(t: bytes)
    requires |t| > 0
    ensures PlaceValue(t) == PlaceValue(t[..|t| - 1]) * 10 + DigitOf(t[|t| - 1])
  {
    if |t| == 1 {
      assert t[1..] == [] && t[..0] == [];
      assert DigitOf(t[0]) * TenTo(0) == DigitOf(t[0]);
    } else {
      var front, tail := t[..|t| - 1], t[1..];
      PlaceLast(tail);
      assert tail[..|tail| - 1] == front[1..];
      TimesTen(DigitOf(t[0]), TenTo(|t| - 2));
    }
  }

  lemma {:induction false} DecimalPlaces(t: bytes)
    requires AreDigits(t)
    ensures DecimalValue(t) == PlaceValue(t)
  {
    if |t| > 0 {
      var front := t[..|t| - 1];
      forall b | b in front ensures 0x30 <= b <= 0x39 {
        assert b in t;
      }
      DecimalPlaces(front);
      PlaceLast(t);
      assert t[|t| - 1] in t;
      DigitIs(t[|t| - 1]);
    }
  }

  lemma Wraps(n: int, w: int)
    ensures Wrap64(n) == w
            <==> -0x8000_0000_0000_0000 <= w < 0x8000_0000_0000_0000 && (w - n) % 0x1_0000_0000_0000_0000 == 0
  {
  }

  /** The value of a number text, by its places. */
  lemma {:induction false} NumberValue(p: Parts, v: Json)
    requires IsAccepted(p)
    ensures v == ValueOf(p) <==> NumberIs(p, v)
  {
    DecimalPlaces(p.whole);
    if |p.frac| == 0 && |p.exp| == 0 && v.JInteger? {
      Wraps(SignedValue(p), v.n);
    }
  }

  lemma {:induction false} NumberMade(d: Doc, i: nat, j: nat, v: Json, p: Parts)
    requires i < j <= |d.text| && (v.JInteger? || v.JDouble?) && (d.comments && j < |d.text| ==> d.text[j] != 0x2F)
    requires TextOf(p) == d.text[i..j] && NumberIs(p, v) && IsAccepted(p)
    ensures Denotes(d, i, j, v, false)
  {
  }

  lemma {:induction false} NumberStops(d: Doc, i: nat, v: Json, j: nat)
    requires NumberAt(d, i) && Number(d, i) == Ok(v, j)
    ensures i < j <= |d.text| && (v.JInteger? || v.JDouble?) && (d.comments && j < |d.text| ==> d.text[j] != 0x2F)
  {
  }

  lemma {:induction false} PartsDenote(d: Doc, i: nat, j: nat, v: Json, p: Parts)
    requires i < j <= |d.text| && (v.JInteger? || v.JDouble?) && (d.comments && j < |d.text| ==> d.text[j] != 0x2F)
    requires TextOf(p) == d.text[i..j] && v == ValueOf(p) && IsAccepted(p)
    ensures Denotes(d, i, j, v, false)
  {
    NumberValue(p, v);
    NumberMade(d, i, j, v, p);
  }

  lemma {:induction false} NumberSound(d: Doc, i: nat)
    requires NumberAt(d, i) && Number(d, i).Ok?
    ensures Denotes(d, i, Number(d, i).next, Number(d, i).value, false)
  {
    var p := NumberShape(d, i);
    var r := Number(d, i);
    NumberStops(d, i, r.value, r.next);
    PartsDenote(d, i, r.next, r.value, p);
  }

  lemma {:induction false} ValueSound(d: Doc, i: nat)
    requires i <= |d.text| && ValueAt(d, i).Ok?
    ensures Denotes(d, i, ValueAt(d, i).next, ValueAt(d, i).value, false)
    decreases |d.text| - i, 0
  {
    var b, r := At(d, i), ValueAt(d, i);
    if b == LBRACE {
      MembersSound(d, i + 1, [], [], r.value.names, r.value.items, r.next, First);
    } else if b == LBRACKET {
      ElementsSound(d, i + 1, [], r.value.items, r.next, First);
    } else if b == QUOTE {
      StrSound(d, i + 1, [], r.value.s, r.next);
    } else if IsDigit(b) || b == MINUS {
      NumberSound(d, i);
    }
  }

  lemma {:induction false} ItemMade(d: Doc, i: nat, k: nat, m: nat, j: nat, items: seq<Json>, at: Place)
    requires i <= k <= m < j <= |d.text| && at != Behind && |items| > 0 && Gap(d, i, k)
    requires Denotes(d, k, m, items[0], false) && ItemsTo(d, m, j, items[1..], Behind, false)
    ensures ItemsTo(d, i, j, items, at, false)
  {
    assert ItemThen(d, k, j, items, false);
    assert ItemsAt(d, k, j, items, at, false);
  }

  lemma {:induction false} ItemsMade(d: Doc, i: nat, k: nat, j: nat, items: seq<Json>, at: Place)
    requires i <= k < j <= |d.text| && Gap(d, i, k) && ItemsAt(d, k, j, items, at, false)
    ensures ItemsTo(d, i, j, items, at, false)
  {
  }

  lemma {:induction false} TakeItem<T>(acc: seq<T>, v: T, all: seq<T>)
    requires acc + [v] <= all
    ensures acc <= all && |acc| < |all| && all[|acc|..][0] == v && all[|acc|..][1..] == all[|acc + [v]|..]
  {
    assert (acc + [v])[|acc|] == v;
  }

  lemma {:induction false} ElementsSound(d: Doc, i: nat, acc: seq<Json>, all: seq<Json>, j: nat, at: Place)
    requires i <= |d.text| && |acc| <= UINT_LIMIT && Elements(d, i, acc, at == Behind) == Ok(all, j)
    ensures i < j <= |d.text| && |all| <= UINT_LIMIT && acc <= all && ItemsTo(d, i, j, all[|acc|..], at, false)
    decreases |d.text| - i, 2
  {
    var k := Skip(d, i).value;
    SkipGap(d, i);
    if At(d, k) == RBRACKET {
      ItemsMade(d, i, k, j, all[|acc|..], at);
    } else if at == Behind {
      ElementsSound(d, k + 1, acc, all, j, Comma);
      ItemsMade(d, i, k, j, all[|acc|..], at);
    } else {
      var v := ValueAt(d, k);
      ValueSound(d, k);
      ElementsSound(d, v.next, acc + [v.value], all, j, Behind);
      TakeItem(acc, v.value, all);
      ItemMade(d, i, k, v.next, j, all[|acc|..], at);
    }
  }

  lemma {:induction false} MembersMade(
    d: Doc, i: nat, k: nat, j: nat, names: seq<bytes>, items: seq<Json>, at: Place)
    requires i <= k < j <= |d.text| && |names| == |items| && Gap(d, i, k) && MembersAt(d, k, j, names, items, at, false)
    ensures MembersTo(d, i, j, names, items, at, false)
  {
  }

  lemma {:induction false} MemberMade(
    d: Doc, i: nat, k: nat, m: nat, j: nat, names: seq<bytes>, items: seq<Json>, at: Place, c: nat)
    requires i <= k < j <= |d.text| && |names| == |items| > 0 && at != Behind && Gap(d, i, k) && d.text[k] == 0x22
    requires k + 1 <= m <= c < j && Str(d, k + 1, m, names[0], false) && |names[0]| <= UINT_LIMIT && Gap(d, m, c)
    requires d.text[c] == 0x3A && ColonThen(d, c + 1, j, names, items, false)
    ensures MembersTo(d, i, j, names, items, at, false)
  {
    assert MemberThen(d, k + 1, j, names, items, false);
    MembersMade(d, i, k, j, names, items, at);
  }

  lemma {:induction false} MembersSound(
    d: Doc, i: nat, nacc: seq<bytes>, acc: seq<Json>, names: seq<bytes>, items: seq<Json>, j: nat, at: Place)
    requires i <= |d.text| && |nacc| == |acc| <= UINT_LIMIT
    requires Members(d, i, nacc, acc, at == Behind) == Ok((names, items), j)
    ensures i < j <= |d.text| && |names| == |items| <= UINT_LIMIT && nacc <= names && acc <= items
    ensures MembersTo(d, i, j, names[|acc|..], items[|acc|..], at, false)
    decreases |d.text| - i, 2
  {
    var k := Skip(d, i).value;
    SkipGap(d, i);
    if At(d, k) == RBRACE {
      MembersMade(d, i, k, j, names[|acc|..], items[|acc|..], at);
    } else if At(d, k) == COMMA {
      MembersSound(d, k + 1, nacc, acc, names, items, j, Comma);
      MembersMade(d, i, k, j, names[|acc|..], items[|acc|..], at);
    } else {
      var name := Chars(d, k + 1, [], false);
      StrSound(d, k + 1, [], name.value, name.next);
      var c := MemberValueSound(d, name.next, nacc + [name.value], acc, names, items, j);
      assert names[|acc|..][0] == (nacc + [name.value])[|acc|];
      MemberMade(d, i, k, name.next, j, names[|acc|..], items[|acc|..], at, c);
    }
  }

  lemma {:induction false} MemberValueSound(
    d: Doc, i: nat, nacc: seq<bytes>, acc: seq<Json>, names: seq<bytes>, items: seq<Json>, j: nat) returns (c: nat)
    requires i <= |d.text| && |nacc| == |acc| + 1 && |acc| <= UINT_LIMIT
    requires MemberValue(d, i, nacc, acc) == Ok((names, items), j)
    ensures i <= c < j <= |d.text| && |names| == |items| <= UINT_LIMIT && |acc| < |items| && nacc <= names
            && acc <= items
    ensures Gap(d, i, c) && d.text[c] == 0x3A && ColonThen(d, c + 1, j, names[|acc|..], items[|acc|..], false)
    decreases |d.text| - i, 3
  {
    c := Skip(d, i).value;
    SkipGap(d, i);
    var a := Skip(d, c + 1).value;
    SkipGap(d, c + 1);
    var v := ValueAt(d, a);
    ValueSound(d, a);
    MembersSound(d, v.next, nacc, acc + [v.value], names, items, j, Behind);
    assert items[|acc|..][0] == (acc + [v.value])[|acc|] && items[|acc|..][1..] == items[|acc + [v.value]|..];
    assert names[|acc|..][1..] == names[|acc + [v.value]|..];
  }

  // ----- every value that is denoted by a text is read from it -----

  /** A number may end before `j`. */
  predicate Ends(d: Doc, j: nat) {
    !IsNumberChar(At(d, j)) && (At(d, j) == 0x2F ==> d.comments)
  }

  /** A value may start at `i`. */
  predicate Starts(d: Doc, i: nat) {
    i < |d.text| && Stands(d, i) && d.text[i] != 0x2F && d.text[i] != 0x2C && d.text[i] != 0x5D && d.text[i] != 0x7D
  }

  lemma {:induction false} Word(d: Doc, i: nat, j: nat, word: bytes)
    requires i <= j <= |d.text| && d.text[i..j] == word
    ensures |word| > 0 ==> At(d, i) == word[0]
    ensures LiteralAt(d, i, word) && j == i + |word|
  {
    if |word| > 0 {
      assert d.text[i..j][0] == d.text[i];
    }
  }

  /** The parts of a number's text. */
  lemma {:induction false} PartsOf(d: Doc, i: nat, j: nat, v: Json) returns (p: Parts)
    requires i <= j <= |d.text| && Denotes(d, i, j, v, false) && (v.JInteger? || v.JDouble?)
    ensures i < j && TextOf(p) == d.text[i..j] && v == ValueOf(p) && IsAccepted(p)
    ensures d.comments && j < |d.text| ==> d.text[j] != 0x2F
  {
    p :| TextOf(p) == d.text[i..j] && NumberIs(p, v) && IsAccepted(p);
    NumberValue(p, v);
  }

  lemma {:induction false} NumberStarts(d: Doc, i: nat)
    requires NumberAt(d, i)
    ensures Starts(d, i)
  {
  }

  lemma {:induction false} NumberComplete(d: Doc, i: nat, j: nat, v: Json)
    requires i <= j <= |d.text| && Denotes(d, i, j, v, false) && (v.JInteger? || v.JDouble?) && Ends(d, j)
    ensures ValueAt(d, i) == Ok(v, j) && Starts(d, i)
  {
    var p := PartsOf(d, i, j, v);
    IsText(d, i, TextOf(p));
    NumberAccepts(d, i, p, j);
    NumberIsValue(d, i);
    NumberStarts(d, i);
  }

  lemma {:induction false} ElementStep(d: Doc, k: nat, acc: seq<Json>, v: Json, m: nat)
    requires Starts(d, k) && ValueAt(d, k) == Ok(v, m) && |acc| < UINT_LIMIT
    ensures Elements(d, k, acc, false) == Elements(d, m, acc + [v], true)
  {
    assert Skip(d, k) == Some(k);
  }

  lemma {:induction false} ElementsSkip(d: Doc, i: nat, k: nat, acc: seq<Json>, comma: bool)
    requires i <= k < |d.text| && Skip(d, i) == Some(k)
    ensures d.text[k] == RBRACKET ==> Elements(d, i, acc, comma) == Ok(acc, k + 1)
    ensures d.text[k] == COMMA && comma ==> Elements(d, i, acc, comma) == Elements(d, k + 1, acc, false)
    ensures Starts(d, k) && !comma ==> Elements(d, i, acc, comma) == Elements(d, k, acc, comma)
  {
    assert Starts(d, k) ==> Skip(d, k) == Some(k);
  }

  lemma {:induction false} MembersStep(d: Doc, i: nat, k: nat, nacc: seq<bytes>, acc: seq<Json>, comma: bool)
    requires i <= k < |d.text| && Skip(d, i) == Some(k)
    ensures d.text[k] == RBRACE ==> Members(d, i, nacc, acc, comma) == Ok((nacc, acc), k + 1)
    ensures d.text[k] == COMMA && comma ==>
              Members(d, i, nacc, acc, comma) == Members(d, k + 1, nacc, acc, false)
    ensures d.text[k] == QUOTE && !comma && Chars(d, k + 1, [], false).Ok? ==>
              var name := Chars(d, k + 1, [], false);
              Members(d, i, nacc, acc, comma) == MemberValue(d, name.next, nacc + [name.value], acc)
  {
  }

  lemma {:induction false} ColonFrom(
    d: Doc, i: nat, c: nat, a: nat, v: Json, m: nat, names: seq<bytes>, acc: seq<Json>)
    requires i <= c < a <= |d.text| && Skip(d, i) == Some(c) && d.text[c] == COLON && Skip(d, c + 1) == Some(a)
    requires ValueAt(d, a) == Ok(v, m) && |acc| < UINT_LIMIT
    ensures MemberValue(d, i, names, acc) == Members(d, m, names, acc + [v], true)
  {
  }

  lemma {:induction false} ValueComplete(d: Doc, i: nat, j: nat, v: Json)
    requires i <= j <= |d.text| && Denotes(d, i, j, v, false) && Ends(d, j)
    ensures ValueAt(d, i) == Ok(v, j) && Starts(d, i)
    decreases v, 0, 0
  {
    match v
    case JNull => Word(d, i, j, NULL_WORD);
    case JBool(b) => Word(d, i, j, if b then TRUE_WORD else FALSE_WORD);
    case JString(s) => StringComplete(d, i, j, s);
    case JArray(items) => ArrayComplete(d, i, j, items);
    case JObject(names, items) => ObjectComplete(d, i, j, names, items);
    case _ => NumberComplete(d, i, j, v);
  }

  lemma {:induction false} StringComplete(d: Doc, i: nat, j: nat, s: bytes)
    requires i < j <= |d.text| && d.text[i] == 0x22 && Str(d, i + 1, j, s, false) && |s| <= UINT_LIMIT
    ensures ValueAt(d, i) == Ok(JString(s), j) && Starts(d, i)
  {
    StrComplete(d, i + 1, j, s, []);
    assert [] + s == s;
  }

  lemma {:induction false} ArrayComplete(d: Doc, i: nat, j: nat, items: seq<Json>)
    requires i < j <= |d.text| && d.text[i] == 0x5B && |items| <= UINT_LIMIT
    requires ItemsTo(d, i + 1, j, items, First, false)
    ensures ValueAt(d, i) == Ok(JArray(items), j) && Starts(d, i)
    decreases items, j - i, 3
  {
    ItemsComplete(d, i + 1, j, items, First, []);
    assert [] + items == items;
  }

  lemma {:induction false} ObjectComplete(d: Doc, i: nat, j: nat, names: seq<bytes>, items: seq<Json>)
    requires i < j <= |d.text| && d.text[i] == 0x7B && |names| == |items| <= UINT_LIMIT
    requires MembersTo(d, i + 1, j, names, items, First, false)
    ensures ValueAt(d, i) == Ok(JObject(names, items), j) && Starts(d, i)
    decreases items, j - i, 3
  {
    MembersComplete(d, i + 1, j, names, items, First, [], []);
    assert [] + items == items && [] + names == names;
  }

  lemma {:induction false} ItemsComplete(d: Doc, i: nat, j: nat, items: seq<Json>, at: Place, acc: seq<Json>)
    requires j <= |d.text| && ItemsTo(d, i, j, items, at, false) && |acc| + |items| <= UINT_LIMIT
    ensures i < j && Elements(d, i, acc, at == Behind) == Ok(acc + items, j) && (at == Behind ==> Ends(d, i))
    decreases items, if i < j then j - i else 0, 1
  {
    var k: nat :| i <= k < j && Gap(d, i, k) && ItemsAt(d, k, j, items, at, false);
    if d.text[k] == 0x5D && j == k + 1 && items == [] {
      GapSkip(d, i, k);
      GapBegins(d, i, k);
      ElementsSkip(d, i, k, acc, at == Behind);
      assert acc + items == acc;
    } else if d.text[k] == 0x2C && at == Behind && ItemsTo(d, k + 1, j, items, Comma, false) {
      GapSkip(d, i, k);
      GapBegins(d, i, k);
      ElementsSkip(d, i, k, acc, true);
      ItemsComplete(d, k + 1, j, items, Comma, acc);
    } else {
      ItemComplete(d, k, j, items, acc);
      GapSkip(d, i, k);
      ElementsSkip(d, i, k, acc, false);
    }
  }

  lemma {:induction false} FirstMoved<T>(acc: seq<T>, s: seq<T>)
    requires |s| > 0
    ensures acc + [s[0]] + s[1..] == acc + s
  {
  }

  /** An item and the rest of its array. */
  lemma {:induction false} ItemComplete(d: Doc, k: nat, j: nat, items: seq<Json>, acc: seq<Json>)
    requires k < j <= |d.text| && |items| > 0 && ItemThen(d, k, j, items, false) && |acc| + |items| <= UINT_LIMIT
    ensures Starts(d, k) && Elements(d, k, acc, false) == Ok(acc + items, j)
    decreases items, 0, 2
  {
    var m: nat :| k <= m <= j && Denotes(d, k, m, items[0], false) && ItemsTo(d, m, j, items[1..], Behind, false);
    ItemsComplete(d, m, j, items[1..], Behind, acc + [items[0]]);
    ValueComplete(d, k, m, items[0]);
    ElementStep(d, k, acc, items[0], m);
    FirstMoved(acc, items);
  }

  lemma {:induction false} MembersComplete(
    d: Doc, i: nat, j: nat, names: seq<bytes>, items: seq<Json>, at: Place, nacc: seq<bytes>, acc: seq<Json>)
    requires j <= |d.text| && |names| == |items| && MembersTo(d, i, j, names, items, at, false)
    requires |nacc| == |acc| && |acc| + |items| <= UINT_LIMIT
    ensures i < j && Members(d, i, nacc, acc, at == Behind) == Ok((nacc + names, acc + items), j)
    ensures at == Behind ==> Ends(d, i)
    decreases items, if i < j then j - i else 0, 1
  {
    var k: nat :| i <= k < j && Gap(d, i, k) && MembersAt(d, k, j, names, items, at, false);
    GapSkip(d, i, k);
    MembersStep(d, i, k, nacc, acc, at == Behind);
    if d.text[k] == 0x7D && j == k + 1 && items == [] {
      GapBegins(d, i, k);
      assert acc + items == acc && nacc + names == nacc;
    } else if d.text[k] == 0x2C && at == Behind && MembersTo(d, k + 1, j, names, items, Comma, false) {
      GapBegins(d, i, k);
      MembersComplete(d, k + 1, j, names, items, Comma, nacc, acc);
    } else {
      MemberComplete(d, k + 1, j, names, items, nacc, acc);
    }
  }

  /** Where a name ends and its colon stands. */
  lemma {:induction false} NameParts(d: Doc, k: nat, j: nat, names: seq<bytes>, items: seq<Json>)
    returns (m: nat, c: nat)
    requires j <= |d.text| && |names| == |items| > 0 && MemberThen(d, k, j, names, items, false)
    ensures k <= m <= c < j && Str(d, k, m, names[0], false) && |names[0]| <= UINT_LIMIT && Gap(d, m, c)
    ensures d.text[c] == 0x3A && ColonThen(d, c + 1, j, names, items, false)
  {
    m, c :|
      && k <= m <= c < j && Str(d, k, m, names[0], false) && |names[0]| <= UINT_LIMIT && Gap(d, m, c)
      && d.text[c] == 0x3A && ColonThen(d, c + 1, j, names, items, false);
  }

  /** Where the value behind a colon stands. */
  lemma {:induction false} ColonParts(d: Doc, b: nat, j: nat, names: seq<bytes>, items: seq<Json>)
    returns (a: nat, m: nat)
    requires j <= |d.text| && |names| == |items| > 0 && ColonThen(d, b, j, names, items, false)
    ensures b <= a <= m <= j && Gap(d, b, a) && Denotes(d, a, m, items[0], false)
    ensures MembersTo(d, m, j, names[1..], items[1..], Behind, false)
  {
    a, m :|
      && b <= a <= m <= j && Gap(d, b, a) && Denotes(d, a, m, items[0], false)
      && MembersTo(d, m, j, names[1..], items[1..], Behind, false);
  }

  /** A name, from inside its quotes, and the rest of the object. */
  lemma {:induction false} MemberComplete(
    d: Doc, k: nat, j: nat, names: seq<bytes>, items: seq<Json>, nacc: seq<bytes>, acc: seq<Json>)
    requires k <= j <= |d.text| && |names| == |items| > 0 && MemberThen(d, k, j, names, items, false)
    requires |nacc| == |acc| && |acc| + |items| <= UINT_LIMIT
    ensures Chars(d, k, [], false).Ok? && Chars(d, k, [], false).value == names[0]
    ensures MemberValue(d, Chars(d, k, [], false).next, nacc + [names[0]], acc) == Ok((nacc + names, acc + items), j)
    decreases items, 0, 3
  {
    var m, c := NameParts(d, k, j, names, items);
    StrComplete(d, k, m, names[0], []);
    assert [] + names[0] == names[0];
    GapSkip(d, m, c);
    ColonComplete(d, c + 1, j, names, items, nacc, acc, m, c);
  }

  lemma {:induction false} ColonComplete(
    d: Doc, b: nat, j: nat, names: seq<bytes>, items: seq<Json>, nacc: seq<bytes>, acc: seq<Json>, i: nat, c: nat)
    requires b <= j <= |d.text| && |names| == |items| > 0 && ColonThen(d, b, j, names, items, false)
    requires |nacc| == |acc| && |acc| + |items| <= UINT_LIMIT
    requires i <= c < |d.text| && b == c + 1 && Skip(d, i) == Some(c) && d.text[c] == COLON
    ensures MemberValue(d, i, nacc + [names[0]], acc) == Ok((nacc + names, acc + items), j)
    decreases items, 0, 2
  {
    var a, m := ColonParts(d, b, j, names, items);
    MembersComplete(d, m, j, names[1..], items[1..], Behind, nacc + [names[0]], acc + [items[0]]);
    ValueComplete(d, a, m, items[0]);
    GapSkip(d, b, a);
    ColonFrom(d, i, c, a, items[0], m, nacc + [names[0]], acc);
    FirstMoved(acc, items);
    FirstMoved(nacc, names);
  }

  // ----- whole texts -----

  lemma {:induction false} SpellsRead(d: Doc, v: Json)
    requires Spells(d, v, false)
    ensures Document(d) == Some(v)
  {
    var i: nat, j: nat, k: nat :|
      && i <= j <= k <= |d.text| && Gap(d, 0, i) && Denotes(d, i, j, v, false) && Gap(d, j, k)
      && (k == |d.text| || d.text[k] == 0x00);
    GapBegins(d, j, k);
    GapSkip(d, j, k);
    ValueComplete(d, i, j, v);
    GapSkip(d, 0, i);
  }

  lemma {:induction false} ReadSpells(d: Doc, v: Json)
    requires Document(d) == Some(v)
    ensures Spells(d, v, false)
  {
    var i := Skip(d, 0).value;
    var j := ValueAt(d, i).next;
    SkipGap(d, 0);
    ValueSound(d, i);
    SkipGap(d, j);
    var k := Skip(d, j).value;
    assert Gap(d, 0, i) && Denotes(d, i, j, v, false) && Gap(d, j, k);
  }

  lemma UnmarkedIs(text: bytes)
    ensures Unmarked(text) == AfterMark(text)
  {
    assert |text| >= 3 ==> text[..3] == [text[0], text[1], text[2]];
  }

  /** The parser gives a text the tree `v` exactly when the text, without its byte-order mark, is a text of `v` in
      the grammar above. */
  lemma {:induction false} LanguageIs(text: bytes, comments: bool, v: Json)
    ensures ParseText(text, comments) == Some(v) <==> Spells(Doc(Unmarked(text), comments), v, false)
  {
    UnmarkedIs(text);
    var d := Doc(Unmarked(text), comments);
    if Document(d) == Some(v) {
      ReadSpells(d, v);
    } else if Spells(d, v, false) {
      SpellsRead(d, v);
    }
  }

  lemma {:induction false} NoEscape(d: Doc, i: nat)
    requires i < |d.text| < i + 5 && (d.text[i] == 0x00 || d.text[i] == 0x75)
    ensures Chars(d, i, [], true).Err?
  {
    assert !HexAt(d, i + 1);
  }

  /** A backslash and a letter stand for one character: a control character for b, f, n, r and t, and the letter
      itself for any other but u. */
  lemma {:induction false} ShortEscape(c: byte, comments: bool)
    ensures ParseText([0x22, 0x5C, c, 0x22], comments)
            == if c == 0x00 || c == 0x75 then None
               else Some(JString([if c == 0x62 then 0x08 else if c == 0x66 then 0x0C else if c == 0x6E then 0x0A
                                  else if c == 0x72 then 0x0D else if c == 0x74 then 0x09 else c]))
  {
    var t: bytes := [0x22, 0x5C, c, 0x22];
    var d := Doc(t, comments);
    assert AfterMark(t) == t && Skip(d, 0) == Some(0) && Skip(d, 4) == Some(4);
    assert Chars(d, 1, [], false) == Chars(d, 2, [], true);
    if c != 0x00 && c != 0x75 {
      assert [] + [Unescape(c)] == [Unescape(c)];
      assert Chars(d, 3, [Unescape(c)], false) == Ok([Unescape(c)], 4);
      assert ValueAt(d, 0) == Ok(JString([Unescape(c)]), 4);
    } else {
      NoEscape(d, 2);
      assert ValueAt(d, 0).Err?;
    }
    assert Value(d, 0) == ValueAt(d, 0);
  }

  // ----- the standard's texts -----

  lemma {:induction false} StrLoose(d: Doc, i: nat, j: nat, s: bytes)
    requires j <= |d.text| && Str(d, i, j, s, true)
    ensures Str(d, i, j, s, false)
    decreases |s|, if i < j then j - i else 0
  {
    var b := d.text[i];
    if b == 0x22 {
    } else if b != 0x5C {
      StrLoose(d, i + 1, j, s[1..]);
    } else if d.text[i + 1] != 0x75 {
      StrLoose(d, i + 2, j, s[1..]);
    } else {
      var u := FourOf(d, i + 2);
      if u < 0xD800 || u > 0xDFFF {
        StrLoose(d, i + 6, j, s[|Encode(u)|..]);
      } else {
        StrLoose(d, i + 12, j, s[|Encode(Joined(u, FourOf(d, i + 8)))|..]);
      }
    }
  }

  lemma {:induction false} DenotesLoose(d: Doc, i: nat, j: nat, v: Json)
    requires i <= j <= |d.text| && Denotes(d, i, j, v, true)
    ensures Denotes(d, i, j, v, false)
    decreases v, 0, 0
  {
    match v
    case JString(s) => StrLoose(d, i + 1, j, s);
    case JArray(items) => ItemsLoose(d, i + 1, j, items, First);
    case JObject(names, items) => MembersLoose(d, i + 1, j, names, items, First);
    case JInteger(_) => NumberLoose(d, i, j, v);
    case JDouble => NumberLoose(d, i, j, v);
    case _ =>
  }

  lemma {:induction false} NumberLoose(d: Doc, i: nat, j: nat, v: Json)
    requires i <= j <= |d.text| && Denotes(d, i, j, v, true) && (v.JInteger? || v.JDouble?)
    ensures Denotes(d, i, j, v, false)
  {
    var p: Parts :| TextOf(p) == d.text[i..j] && NumberIs(p, v) && IsStandard(p);
    assert IsAccepted(p);
  }

  lemma {:induction false} ItemsLoose(d: Doc, i: nat, j: nat, items: seq<Json>, at: Place)
    requires j <= |d.text| && ItemsTo(d, i, j, items, at, true)
    ensures i < j && ItemsTo(d, i, j, items, at, false)
    decreases items, if i < j then j - i else 0, 1
  {
    var k: nat :| i <= k < j && Gap(d, i, k) && ItemsAt(d, k, j, items, at, true);
    if d.text[k] == 0x2C && at == Behind && ItemsTo(d, k + 1, j, items, Comma, true) {
      ItemsLoose(d, k + 1, j, items, Comma);
      ItemsMade(d, i, k, j, items, at);
    } else if d.text[k] == 0x5D && j == k + 1 && items == [] {
      ItemsMade(d, i, k, j, items, at);
    } else {
      ItemLoose(d, i, k, j, items, at);
    }
  }

  lemma {:induction false} ItemLoose(d: Doc, i: nat, k: nat, j: nat, items: seq<Json>, at: Place)
    requires i <= k < j <= |d.text| && |items| > 0 && at != Behind && Gap(d, i, k) && ItemThen(d, k, j, items, true)
    ensures ItemsTo(d, i, j, items, at, false)
    decreases items, 0, 2
  {
    var m: nat :| k <= m <= j && Denotes(d, k, m, items[0], true) && ItemsTo(d, m, j, items[1..], Behind, true);
    DenotesLoose(d, k, m, items[0]);
    ItemsLoose(d, m, j, items[1..], Behind);
    ItemMade(d, i, k, m, j, items, at);
  }

  lemma {:induction false} MembersLoose(d: Doc, i: nat, j: nat, names: seq<bytes>, items: seq<Json>, at: Place)
    requires j <= |d.text| && |names| == |items| && MembersTo(d, i, j, names, items, at, true)
    ensures i < j && MembersTo(d, i, j, names, items, at, false)
    decreases items, if i < j then j - i else 0, 1
  {
    var k: nat :| i <= k < j && Gap(d, i, k) && MembersAt(d, k, j, names, items, at, true);
    if d.text[k] == 0x2C && at == Behind && MembersTo(d, k + 1, j, names, items, Comma, true) {
      MembersLoose(d, k + 1, j, names, items, Comma);
      MembersMade(d, i, k, j, names, items, at);
    } else if d.text[k] == 0x7D && j == k + 1 && items == [] {
      MembersMade(d, i, k, j, names, items, at);
    } else {
      MemberLoose(d, i, k, j, names, items, at);
    }
  }

  lemma {:induction false} MemberLoose(
    d: Doc, i: nat, k: nat, j: nat, names: seq<bytes>, items: seq<Json>, at: Place)
    requires i <= k < j <= |d.text| && |names| == |items| > 0 && at != Behind && Gap(d, i, k) && d.text[k] == 0x22
    requires MemberThen(d, k + 1, j, names, items, true)
    ensures MembersTo(d, i, j, names, items, at, false)
    decreases items, 0, 3
  {
    var m: nat, c: nat :|
      && k + 1 <= m <= c < j && Str(d, k + 1, m, names[0], true) && |names[0]| <= UINT_LIMIT && Gap(d, m, c)
      && d.text[c] == 0x3A && ColonThen(d, c + 1, j, names, items, true);
    StrLoose(d, k + 1, m, names[0]);
    ColonLoose(d, c + 1, j, names, items);
    MemberMade(d, i, k, m, j, names, items, at, c);
  }

  lemma {:induction false} ColonLoose(d: Doc, b: nat, j: nat, names: seq<bytes>, items: seq<Json>)
    requires j <= |d.text| && |names| == |items| > 0 && ColonThen(d, b, j, names, items, true)
    ensures ColonThen(d, b, j, names, items, false)
    decreases items, 0, 2
  {
    var a: nat, m: nat :|
      && b <= a <= m <= j && Gap(d, b, a) && Denotes(d, a, m, items[0], true)
      && MembersTo(d, m, j, names[1..], items[1..], Behind, true);
    DenotesLoose(d, a, m, items[0]);
    MembersLoose(d, m, j, names[1..], items[1..], Behind);
  }

  /** Every text of the standard is accepted. */
  lemma {:induction false} StandardAccepted(text: bytes, comments: bool, v: Json)
    requires Spells(Doc(text, comments), v, true)
    ensures ParseText(text, comments) == Some(v)
  {
    var d := Doc(text, comments);
    var i: nat, j: nat, k: nat :|
      && i <= j <= k <= |d.text| && Gap(d, 0, i) && Denotes(d, i, j, v, true) && Gap(d, j, k) && k == |d.text|;
    DenotesLoose(d, i, j, v);
    assert Spells(d, v, false);
    StandardUnmarked(d, i, j, v);
    LanguageIs(text, comments, v);
  }

  /** No value's text begins with a byte-order mark. */
  lemma {:induction false} StandardUnmarked(d: Doc, i: nat, j: nat, v: Json)
    requires i <= j <= |d.text| && Gap(d, 0, i) && Denotes(d, i, j, v, false)
    ensures Unmarked(d.text) == d.text
  {
    DenotesStarts(d, i, j, v);
    assert d.text[0] != 0xEF;
  }

  lemma {:induction false} DenotesStarts(d: Doc, i: nat, j: nat, v: Json)
    requires i <= j <= |d.text| && Denotes(d, i, j, v, false)
    ensures i < j && d.text[i] != 0xEF
  {
    if v.JInteger? || v.JDouble? {
      var p := PartsOf(d, i, j, v);
      assert |p.whole| > 0 ==> p.whole[0] in p.whole;
      assert IsNumberChar(TextOf(p)[0]);
      assert d.text[i] == d.text[i..j][0];
    } else if v.JNull? || v.JBool? {
      assert d.text[i] == d.text[i..j][0];
    }
  }
}
