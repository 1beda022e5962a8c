/** The texts the parser accepts, as a recursive-descent definition over positions. */
module Grammar {
  import opened Bytes
  import opened Unicode

  /** The input after the byte-order mark, and whether comments are enabled. */
  datatype Doc = Doc(text: bytes, comments: bool)

  datatype Json =
    | JNull
    | JBool(b: bool)
    | JInteger(n: int)
    | JDouble
    | JString(s: bytes)
    | JArray(items: seq<Json>)
    | JObject(names: seq<bytes>, items: seq<Json>)

  datatype Parsed<+T> = Ok(value: T, next: nat) | Err

  /** The largest length before the overflow check fires: UINT_MAX less the slack of 8. */
  const UINT_LIMIT: nat := 0xFFFF_FFFF - 8

  /** The byte at a position, with NUL standing for the end of the text. */
  function At(d: Doc, i: nat): byte {
    if i < |d.text| then d.text[i] else NUL
  }

  // ----- white space and comments -----

  /** Where a line comment stops: at a line break, a NUL or the end. */
  function LineEnd(d: Doc, i: nat): (j: nat)
    requires i <= |d.text|
    ensures i <= j <= |d.text|
    decreases |d.text| - i
  {
    if i == |d.text| || At(d, i) == CR || At(d, i) == LF || At(d, i) == NUL then i
    else LineEnd(d, i + 1)
  }

  /** The position after the closing mark of a block comment. */
  function BlockEnd(d: Doc, i: nat): (r: Option<nat>)
    requires i <= |d.text|
    ensures r.Some? ==> i < r.value <= |d.text|
    decreases |d.text| - i
  {
    if i == |d.text| || At(d, i) == NUL then None
    else if At(d, i) == STAR && i + 1 < |d.text| && d.text[i + 1] == SLASH then Some(i + 2)
    else BlockEnd(d, i + 1)
  }

  /** The next position that is neither white space nor inside a comment. */
  function Skip(d: Doc, i: nat): (r: Option<nat>)
    requires i <= |d.text|
    ensures r.Some? ==> i <= r.value <= |d.text|
    decreases |d.text| - i
  {
    if i == |d.text| then Some(i)
    else if IsSpace(d.text[i]) then Skip(d, i + 1)
    else if d.comments && d.text[i] == SLASH then
      if At(d, i + 1) == SLASH then Skip(d, LineEnd(d, i + 2))
      else if At(d, i + 1) == STAR then
        var e := BlockEnd(d, i + 2);
        if e.None? then None else Skip(d, e.value)
      else None
    else Some(i)
  }

  // ----- strings -----

  /** The character a one-letter escape stands for; an unknown letter stands for itself. */
  function Unescape(b: byte): byte {
    if b == 0x62 then 0x08
    else if b == 0x66 then 0x0C
    else if b == 0x6E then 0x0A
    else if b == 0x72 then 0x0D
    else if b == 0x74 then 0x09
    else b
  }

  predicate HexAt(d: Doc, i: nat) {
    && i + 4 <= |d.text|
    && HexValue(d.text[i]) != 0xFF && HexValue(d.text[i + 1]) != 0xFF
    && HexValue(d.text[i + 2]) != 0xFF && HexValue(d.text[i + 3]) != 0xFF
  }

  function UnitAt(d: Doc, i: nat): bv32
    requires HexAt(d, i)
  {
    CodeUnit(HexValue(d.text[i]), HexValue(d.text[i + 1]), HexValue(d.text[i + 2]), HexValue(d.text[i + 3]))
  }

  /** The character of a \u escape whose hexadecimal digits start at `i`: one unit or a pair. */
  function EscapedChar(d: Doc, i: nat): (r: Parsed<bv32>)
    ensures r.Ok? ==> i < r.next <= |d.text|
  {
    if !HexAt(d, i) then Err
    else if !IsSurrogate(UnitAt(d, i)) then Ok(UnitAt(d, i), i + 4)
    else if At(d, i + 4) == BACKSLASH && At(d, i + 5) == 0x75 && HexAt(d, i + 6) then
      Ok(JoinPair(UnitAt(d, i), UnitAt(d, i + 6)), i + 10)
    else Err
  }

  /** The rest of a string, from inside the quotes, given the bytes collected so far. */
  function Chars(d: Doc, i: nat, acc: bytes, escaped: bool): (r: Parsed<bytes>)
    requires i <= |d.text|
    ensures r.Ok? ==> i < r.next <= |d.text|
    decreases |d.text| - i
  {
    if At(d, i) == NUL || |acc| > UINT_LIMIT then Err
    else if escaped then
      if d.text[i] == 0x75 then
        var c := EscapedChar(d, i + 1);
        if c.Err? then Err else Chars(d, c.next, acc + Encode(c.value), false)
      else Chars(d, i + 1, acc + [Unescape(d.text[i])], false)
    else if d.text[i] == BACKSLASH then Chars(d, i + 1, acc, true)
    else if d.text[i] == QUOTE then Ok(acc, i + 1)
    else Chars(d, i + 1, acc + [d.text[i]], false)
  }

  // ----- numbers -----

  /** The end of the longest run of digits from `i`. */
  function DigitsEnd(d: Doc, i: nat): (j: nat)
    requires i <= |d.text|
    ensures i <= j <= |d.text|
    decreases |d.text| - i
  {
    if i < |d.text| && IsDigit(d.text[i]) then DigitsEnd(d, i + 1) else i
  }

  function DecimalValue(t: bytes): nat {
    if t == [] then 0 else DecimalValue(t[..|t| - 1]) * 10 + DigitValue(t[|t| - 1])
  }

  /** Two's-complement wrap-around of a 64-bit integer. */
  function Wrap64(n: int): (w: int)
    ensures -0x8000_0000_0000_0000 <= w < 0x8000_0000_0000_0000
  {
    (n + 0x8000_0000_0000_0000) % 0x1_0000_0000_0000_0000 - 0x8000_0000_0000_0000
  }

  /** The end of the optional fraction after integer digits `a..z`. */
  function FractionEnd(d: Doc, a: nat, z: nat): (r: Option<nat>)
    requires a <= z <= |d.text|
    ensures r.Some? ==> z <= r.value <= |d.text|
  {
    if At(d, z) != DOT then Some(z)
    else if z == a || DigitsEnd(d, z + 1) == z + 1 then None
    else Some(DigitsEnd(d, z + 1))
  }

  /** The first digit position of an exponent whose mark is at `f`. */
  function ExponentDigits(d: Doc, f: nat): nat {
    if IsSign(At(d, f + 1)) then f + 2 else f + 1
  }

  /** The end of the optional exponent at `f`. */
  function ExponentEnd(d: Doc, f: nat): (r: Option<nat>)
    requires f <= |d.text|
    ensures r.Some? ==> f <= r.value <= |d.text|
  {
    if !IsExponentMark(At(d, f)) then Some(f)
    else
      var g := ExponentDigits(d, f);
      if DigitsEnd(d, g) == g then None else Some(DigitsEnd(d, g))
  }

  /** A number starting at `i`, where the text has a digit or a minus sign.  With comments
      enabled a comment may not follow it directly. */
  function Number(d: Doc, i: nat): (r: Parsed<Json>)
    requires i < |d.text| && (IsDigit(d.text[i]) || d.text[i] == MINUS)
    ensures r.Ok? ==> i < r.next <= |d.text|
  {
    var negative := d.text[i] == MINUS;
    var a := if negative then i + 1 else i;
    var z := DigitsEnd(d, a);
    if z - a >= 2 && d.text[a] == ZERO then Err
    else
      var f := FractionEnd(d, a, z);
      if f.None? then Err
      else
        var e := ExponentEnd(d, f.value);
        if e.None? || (d.comments && At(d, e.value) == SLASH) then Err
        else if e.value > z then Ok(JDouble, e.value)
        else
          var n: int := DecimalValue(d.text[a..z]);
          Ok(JInteger(Wrap64(if negative then -n else n)), z)
  }

  // ----- values -----

  predicate LiteralAt(d: Doc, i: nat, word: bytes) {
    i + |word| <= |d.text| && d.text[i..i + |word|] == word
  }

  const TRUE_WORD: bytes := [0x74, 0x72, 0x75, 0x65]
  const FALSE_WORD: bytes := [0x66, 0x61, 0x6C, 0x73, 0x65]
  const NULL_WORD: bytes := [0x6E, 0x75, 0x6C, 0x6C]

  /** A value after optional white space. */
  function Value(d: Doc, i: nat): (r: Parsed<Json>)
    requires i <= |d.text|
    ensures r.Ok? ==> i < r.next <= |d.text|
    decreases |d.text| - i, 1
  {
    var j := Skip(d, i);
    if j.None? then Err else ValueAt(d, j.value)
  }

  /** A value that starts exactly at `i`. */
  function ValueAt(d: Doc, i: nat): (r: Parsed<Json>)
    requires i <= |d.text|
    ensures r.Ok? ==> i < r.next <= |d.text|
    decreases |d.text| - i, 0
  {
    var b := At(d, i);
    if b == LBRACE then
      var r := Members(d, i + 1, [], [], false);
      if r.Err? then Err else Ok(JObject(r.value.0, r.value.1), r.next)
    else if b == LBRACKET then
      var r := Elements(d, i + 1, [], false);
      if r.Err? then Err else Ok(JArray(r.value), r.next)
    else if b == QUOTE then
      var r := Chars(d, i + 1, [], false);
      if r.Err? then Err else Ok(JString(r.value), r.next)
    else if b == 0x74 then
      if LiteralAt(d, i, TRUE_WORD) then Ok(JBool(true), i + 4) else Err
    else if b == 0x66 then
      if LiteralAt(d, i, FALSE_WORD) then Ok(JBool(false), i + 5) else Err
    else if b == 0x6E then
      if LiteralAt(d, i, NULL_WORD) then Ok(JNull, i + 4) else Err
    else if IsDigit(b) || b == MINUS then Number(d, i)
    else Err
  }

  /** The rest of an array after the given items; `comma` says that a separator is still due.
      A separator may be followed by the closing bracket. */
  function Elements(d: Doc, i: nat, items: seq<Json>, comma: bool): (r: Parsed<seq<Json>>)
    requires i <= |d.text|
    ensures r.Ok? ==> i < r.next <= |d.text|
    decreases |d.text| - i, 2
  {
    var j := Skip(d, i);
    if j.None? then Err
    else
      var b := At(d, j.value);
      if b == RBRACKET then Ok(items, j.value + 1)
      else if comma then
        if b == COMMA then Elements(d, j.value + 1, items, false) else Err
      else
        var v := ValueAt(d, j.value);
        if v.Err? || |items| + 1 > UINT_LIMIT then Err
        else Elements(d, v.next, items + [v.value], true)
  }

  /** The rest of an object after the given members. */
  function Members(d: Doc, i: nat, names: seq<bytes>, items: seq<Json>, comma: bool)
    : (r: Parsed<(seq<bytes>, seq<Json>)>)
    requires i <= |d.text|
    ensures r.Ok? ==> i < r.next <= |d.text|
    decreases |d.text| - i, 2
  {
    var j := Skip(d, i);
    if j.None? then Err
    else
      var b := At(d, j.value);
      if b == RBRACE then Ok((names, items), j.value + 1)
      else if b == COMMA then
        if comma then Members(d, j.value + 1, names, items, false) else Err
      else if b == QUOTE && !comma then
        var name := Chars(d, j.value + 1, [], false);
        if name.Err? then Err else MemberValue(d, name.next, names + [name.value], items)
      else Err
  }

  /** The colon and value of the last name, then the rest of the object. */
  function MemberValue(d: Doc, i: nat, names: seq<bytes>, items: seq<Json>)
    : (r: Parsed<(seq<bytes>, seq<Json>)>)
    requires i <= |d.text|
    ensures r.Ok? ==> i < r.next <= |d.text|
    decreases |d.text| - i, 3
  {
    var k := Skip(d, i);
    if k.None? || At(d, k.value) != COLON then Err
    else
      var v := Value(d, k.value + 1);
      if v.Err? || |items| + 1 > UINT_LIMIT then Err
      else Members(d, v.next, names, items + [v.value], true)
  }

  /** Only white space may follow the root value, up to the end or a NUL. */
  predicate Trailing(d: Doc, i: nat)
    requires i <= |d.text|
  {
    var j := Skip(d, i);
    j.Some? && At(d, j.value) == NUL
  }

  function Document(d: Doc): Option<Json> {
    var v := Value(d, 0);
    if v.Ok? && Trailing(d, v.next) then Some(v.value) else None
  }

  /** A leading UTF-8 byte-order mark is dropped. */
  function AfterMark(text: bytes): bytes {
    if |text| >= 3 && text[0] == 0xEF && text[1] == 0xBB && text[2] == 0xBF then text[3..] else text
  }

  /** The tree of a text, or None when the text is rejected. */
  function ParseText(text: bytes, comments: bool): Option<Json> {
    Document(Doc(AfterMark(text), comments))
  }

  // ----- the trees of accepted texts -----

  /** Every object of the tree has one name for each item. */
  predicate WellFormed(v: Json) {
    match v
    case JArray(items) => forall k | 0 <= k < |items| :: WellFormed(items[k])
    case JObject(names, items) => |names| == |items| && forall k | 0 <= k < |items| :: WellFormed(items[k])
    case _ => true
  }

  /** The parser's trees are well formed. */
  lemma ParsedWellFormed(text: bytes, comments: bool)
    requires ParseText(text, comments).Some?
    ensures WellFormed(ParseText(text, comments).value)
  {
    var d := Doc(AfterMark(text), comments);
    ValueWellFormed(d, Skip(d, 0).value);
  }

  lemma {:induction false} ValueWellFormed(d: Doc, i: nat)
    requires i <= |d.text| && ValueAt(d, i).Ok?
    ensures WellFormed(ValueAt(d, i).value)
    decreases |d.text| - i, 0
  {
    if At(d, i) == LBRACE {
      MembersWellFormed(d, i + 1, [], [], false);
    } else if At(d, i) == LBRACKET {
      ElementsWellFormed(d, i + 1, [], false);
    }
  }

  lemma {:induction false} ElementsWellFormed(d: Doc, i: nat, items: seq<Json>, comma: bool)
    requires i <= |d.text| && Elements(d, i, items, comma).Ok?
    requires forall k | 0 <= k < |items| :: WellFormed(items[k])
    ensures var r := Elements(d, i, items, comma).value; forall k | 0 <= k < |r| :: WellFormed(r[k])
    decreases |d.text| - i, 2
  {
    var j := Skip(d, i).value;
    if At(d, j) == RBRACKET {
    } else if comma {
      ElementsWellFormed(d, j + 1, items, false);
    } else {
      var v := ValueAt(d, j);
      ValueWellFormed(d, j);
      ElementsWellFormed(d, v.next, items + [v.value], true);
    }
  }

  lemma {:induction false} MembersWellFormed(d: Doc, i: nat, names: seq<bytes>, items: seq<Json>, comma: bool)
    requires i <= |d.text| && Members(d, i, names, items, comma).Ok?
    requires |names| == |items| && forall k | 0 <= k < |items| :: WellFormed(items[k])
    ensures var r := Members(d, i, names, items, comma).value;
      |r.0| == |r.1| && forall k | 0 <= k < |r.1| :: WellFormed(r.1[k])
    decreases |d.text| - i, 2
  {
    var j := Skip(d, i).value;
    if At(d, j) == RBRACE {
    } else if At(d, j) == COMMA {
      MembersWellFormed(d, j + 1, names, items, false);
    } else {
      assert At(d, j) == QUOTE && !comma;
      var name := Chars(d, j + 1, [], false);
      MemberValueWellFormed(d, name.next, names + [name.value], items);
    }
  }

  lemma {:induction false} MemberValueWellFormed(d: Doc, i: nat, names: seq<bytes>, items: seq<Json>)
    requires i <= |d.text| && MemberValue(d, i, names, items).Ok?
    requires |names| == |items| + 1 && forall k | 0 <= k < |items| :: WellFormed(items[k])
    ensures var r := MemberValue(d, i, names, items).value;
      |r.0| == |r.1| && forall k | 0 <= k < |r.1| :: WellFormed(r.1[k])
    decreases |d.text| - i, 3
  {
    var k := Skip(d, i).value;
    var v := Value(d, k + 1);
    ValueWellFormed(d, Skip(d, k + 1).value);
    MembersWellFormed(d, v.next, names, items + [v.value], true);
  }
}
