/** A text for every tree, and the proof that the grammar reads it back. */
module Writer {
  import opened Bytes
  import opened Unicode
  import opened Grammar
  import opened Numbers
  import opened Progress

  // ----- strings -----

  const ESCAPED_NUL: bytes := [BACKSLASH, 0x75, ZERO, ZERO, ZERO, ZERO]

  /** The short escapes of section 7 of RFC 8259, and NUL as a \u escape. */
  function EscapeByte(b: byte): bytes {
    match b
    case 0x22 => [0x5C, 0x22]
    case 0x5C => [0x5C, 0x5C]
    case 0x08 => [0x5C, 0x62]
    case 0x0C => [0x5C, 0x66]
    case 0x0A => [0x5C, 0x6E]
    case 0x0D => [0x5C, 0x72]
    case 0x09 => [0x5C, 0x74]
    case 0x00 => ESCAPED_NUL
    case _ => [b]
  }

  function Escape(s: bytes): bytes {
    if |s| == 0 then [] else EscapeByte(s[0]) + Escape(s[1..])
  }

  /** `t` stands in the text at position `i`. */
  predicate TextAt(d: Doc, i: nat, t: bytes)
    decreases |t|
  {
    if |t| == 0 then i <= |d.text|
    else i < |d.text| && d.text[i] == t[0] && TextAt(d, i + 1, t[1..])
  }

  lemma {:induction false} TextIs(d: Doc, i: nat, t: bytes)
    requires TextAt(d, i, t)
    ensures i + |t| <= |d.text| && d.text[i..i + |t|] == t
    decreases |t|
  {
    if |t| > 0 {
      TextIs(d, i + 1, t[1..]);
      assert d.text[i..i + |t|] == [t[0]] + d.text[i + 1..i + 1 + |t[1..]|];
      assert t == [t[0]] + t[1..];
    }
  }

  lemma {:induction false} IsText(d: Doc, i: nat, t: bytes)
    requires i + |t| <= |d.text| && d.text[i..i + |t|] == t
    ensures TextAt(d, i, t)
    decreases |t|
  {
    if |t| > 0 {
      assert t[0] == d.text[i..i + |t|][0] == d.text[i];
      assert d.text[i + 1..i + 1 + |t[1..]|] == d.text[i..i + |t|][1..] == t[1..];
      IsText(d, i + 1, t[1..]);
    }
  }

  lemma {:induction false} TextParts(d: Doc, i: nat, a: bytes, b: bytes, j: nat)
    requires TextAt(d, i, a + b) && j == i + |a|
    ensures TextAt(d, i, a) && TextAt(d, j, b)
    decreases |a|
  {
    if |a| == 0 {
      assert a + b == b;
    } else {
      assert (a + b)[1..] == a[1..] + b;
      TextParts(d, i + 1, a[1..], b, j);
    }
  }

  lemma {:induction false} StartsAt(d: Doc, i: nat, t: bytes)
    requires TextAt(d, i, t) && |t| > 0
    ensures i < |d.text| && d.text[i] == t[0]
  {
  }

  lemma {:induction false} EscapedNul(d: Doc, i: nat)
    requires TextAt(d, i, ESCAPED_NUL)
    ensures i + 6 <= |d.text| && d.text[i + 1] == 0x75 && EscapedChar(d, i + 2) == Ok(0, i + 6)
  {
    TextIs(d, i, ESCAPED_NUL);
    var t := d.text[i..i + 6];
    assert d.text[i + 1] == t[1] && d.text[i + 2] == t[2] && d.text[i + 3] == t[3];
    assert d.text[i + 4] == t[4] && d.text[i + 5] == t[5];
    assert CodeUnit(0, 0, 0, 0) == 0;
  }

  /** One written byte is read back as itself. */
  lemma {:induction false} OneByte(d: Doc, i: nat, acc: bytes, b: byte, t: bytes)
    requires |acc| < UINT_LIMIT && t == EscapeByte(b) && TextAt(d, i, t)
    ensures i + |t| <= |d.text| && Chars(d, i, acc, false) == Chars(d, i + |t|, acc + [b], false)
  {
    TextIs(d, i, t);
    if b == NUL {
      EscapedNul(d, i);
      assert Encode(0) == [0];
    }
  }

  lemma EscapeSplit(d: Doc, i: nat, s: bytes, t: bytes, rest: bytes)
    requires |s| > 0 && t == EscapeByte(s[0]) && rest == Escape(s[1..]) + [QUOTE]
    requires TextAt(d, i, Escape(s) + [QUOTE])
    ensures TextAt(d, i, t) && TextAt(d, i + |t|, rest)
    ensures |Escape(s)| == |t| + |Escape(s[1..])|
  {
    assert Escape(s) + [QUOTE] == t + rest;
    TextParts(d, i, t, rest, i + |t|);
  }

  lemma {:induction false} EscapedChars(d: Doc, i: nat, acc: bytes, s: bytes, end: nat)
    requires |acc| + |s| <= UINT_LIMIT && end == i + |Escape(s)| + 1
    requires TextAt(d, i, Escape(s) + [QUOTE])
    ensures Chars(d, i, acc, false) == Ok(acc + s, end)
    decreases |s|
  {
    if |s| == 0 {
      StartsAt(d, i, Escape(s) + [QUOTE]);
      assert acc + s == acc;
    } else {
      var t, tail := EscapeByte(s[0]), s[1..];
      EscapeSplit(d, i, s, t, Escape(tail) + [QUOTE]);
      OneByte(d, i, acc, s[0], t);
      EscapedChars(d, i + |t|, acc + [s[0]], tail, end);
      assert acc + [s[0]] + tail == acc + s;
    }
  }

  // ----- integers -----

  function DigitByte(n: nat): (b: byte)
    requires n < 10
    ensures IsDigit(b) && DigitValue(b) == n && (b == ZERO <==> n == 0)
  {
    match n
    case 0 => 0x30 case 1 => 0x31 case 2 => 0x32 case 3 => 0x33 case 4 => 0x34
    case 5 => 0x35 case 6 => 0x36 case 7 => 0x37 case 8 => 0x38 case _ => 0x39
  }

  function Decimal(n: nat): (t: bytes)
    ensures |t| > 0 && (forall b | b in t :: IsDigit(b))
    ensures DecimalValue(t) == n
    ensures t[0] == ZERO ==> n == 0 && |t| == 1
  {
    if n < 10 then
      assert DecimalValue([DigitByte(n)]) == DecimalValue([]) * 10 + n;
      [DigitByte(n)]
    else
      var rest, last := Decimal(n / 10), DigitByte(n % 10);
      assert (rest + [last])[..|rest|] == rest;
      rest + [last]
  }

  function IntegerText(n: int): bytes {
    if n < 0 then [MINUS] + Decimal(-n) else Decimal(n)
  }

  /** Nothing that could continue a number stands at `i`. */
  predicate Stops(d: Doc, i: nat) {
    !IsNumberChar(At(d, i)) && At(d, i) != SLASH
  }

  lemma {:induction false} DigitRun(d: Doc, a: nat, z: nat)
    requires AllDigits(d, a, z) && !IsDigit(At(d, z))
    ensures DigitsEnd(d, a) == z
  {
    RunEnd(d, a, z);
  }

  /** A run of digits that stands at `a`. */
  lemma {:induction false} DigitsAt(d: Doc, a: nat, t: bytes, z: nat)
    requires TextAt(d, a, t) && |t| > 0 && (forall b | b in t :: IsDigit(b))
    requires z == a + |t| && !IsDigit(At(d, z))
    ensures DigitsEnd(d, a) == z && d.text[a..z] == t && IsDigit(d.text[a])
    ensures d.text[a] == t[0]
  {
    TextIs(d, a, t);
    forall k | a <= k < z ensures IsDigit(d.text[k]) {
      assert d.text[k] == d.text[a..z][k - a];
    }
    DigitRun(d, a, z);
    assert d.text[a] == d.text[a..z][0];
  }

  lemma {:induction false} IntegerReads(d: Doc, i: nat, n: int, end: nat)
    requires -0x8000_0000_0000_0000 <= n < 0x8000_0000_0000_0000
    requires TextAt(d, i, IntegerText(n)) && end == i + |IntegerText(n)| && Stops(d, end)
    ensures ValueAt(d, i) == Ok(JInteger(n), end)
  {
    var digits := Decimal(if n < 0 then -n else n);
    if n < 0 {
      TextParts(d, i, [MINUS], digits, i + 1);
      StartsAt(d, i, [MINUS]);
      DigitsAt(d, i + 1, digits, end);
    } else {
      DigitsAt(d, i, digits, end);
    }
    PlainNumber(d, i, n, end, digits);
    NumberIsValue(d, i);
  }

  /** A number of digits only. */
  lemma {:induction false} PlainNumber(d: Doc, i: nat, n: int, end: nat, digits: bytes)
    requires -0x8000_0000_0000_0000 <= n < 0x8000_0000_0000_0000
    requires digits == Decimal(if n < 0 then -n else n)
    requires NumberAt(d, i) && (d.text[i] == MINUS <==> n < 0) && First(d, i) < end <= |d.text| && Stops(d, end)
    requires DigitsEnd(d, First(d, i)) == end && d.text[First(d, i)..end] == digits
    ensures Number(d, i) == Ok(JInteger(n), end)
  {
    var a := First(d, i);
    assert d.text[a] == d.text[a..end][0] == digits[0];
    assert FractionEnd(d, a, end) == Some(end);
    assert ExponentEnd(d, end) == Some(end);
    WrapSame(n);
  }

  lemma {:induction false} NumberIsValue(d: Doc, i: nat)
    requires NumberAt(d, i)
    ensures ValueAt(d, i) == Number(d, i)
  {
  }

  lemma WrapSame(n: int)
    requires -0x8000_0000_0000_0000 <= n < 0x8000_0000_0000_0000
    ensures Wrap64(n) == n
  {
  }

  // ----- trees -----

  const DOUBLE_TEXT: bytes := [ZERO, DOT, ZERO]

  /** The tree has a text: its integers fit in 64 bits and its lengths in the parser's counters. */
  predicate Writable(v: Json) {
    match v
    case JInteger(n) => -0x8000_0000_0000_0000 <= n < 0x8000_0000_0000_0000
    case JString(s) => |s| <= UINT_LIMIT
    case JArray(items) => |items| <= UINT_LIMIT && forall k | 0 <= k < |items| :: Writable(items[k])
    case JObject(names, items) =>
      && |names| == |items| <= UINT_LIMIT
      && (forall k | 0 <= k < |names| :: |names[k]| <= UINT_LIMIT)
      && forall k | 0 <= k < |items| :: Writable(items[k])
    case _ => true
  }

  function Write(v: Json): bytes
    requires Writable(v)
    decreases v, 0
  {
    match v
    case JNull => NULL_WORD
    case JBool(b) => if b then TRUE_WORD else FALSE_WORD
    case JInteger(n) => IntegerText(n)
    case JDouble => DOUBLE_TEXT
    case JString(s) => [QUOTE] + (Escape(s) + [QUOTE])
    case JArray(items) => [LBRACKET] + WriteItems(items, 0)
    case JObject(names, items) => [LBRACE] + WriteMembers(names, items, 0)
  }

  /** The items from number `k`, and the closing bracket. */
  function WriteItems(items: seq<Json>, k: nat): bytes
    requires k <= |items| && forall j | 0 <= j < |items| :: Writable(items[j])
    decreases items, |items| - k
  {
    if k == |items| then [RBRACKET]
    else (if k > 0 then [COMMA] else []) + (Write(items[k]) + WriteItems(items, k + 1))
  }

  function WriteName(name: bytes): bytes {
    [QUOTE] + ((Escape(name) + [QUOTE]) + [COLON])
  }

  /** The members from number `k`, and the closing brace. */
  function WriteMembers(names: seq<bytes>, items: seq<Json>, k: nat): bytes
    requires k <= |items| == |names| && forall j | 0 <= j < |items| :: Writable(items[j])
    decreases items, |items| - k
  {
    if k == |items| then [RBRACE]
    else (if k > 0 then [COMMA] else []) + (WriteName(names[k]) + (Write(items[k]) + WriteMembers(names, items, k + 1)))
  }

  /** No value starts with white space, a slash or a closing bracket. */
  lemma {:induction false} ValueStart(v: Json)
    requires Writable(v)
    ensures |Write(v)| > 0
    ensures var b := Write(v)[0];
      !IsSpace(b) && b != SLASH && b != RBRACKET && b != RBRACE && b != COMMA && b != NUL && b != 0xEF
  {
    if v.JInteger? {
      var digits := Decimal(if v.n < 0 then -v.n else v.n);
      assert digits[0] in digits;
    }
  }

  lemma {:induction false} ItemsStart(items: seq<Json>, k: nat)
    requires k <= |items| && forall j | 0 <= j < |items| :: Writable(items[j])
    requires k > 0
    ensures |WriteItems(items, k)| > 0
    ensures WriteItems(items, k)[0] == if k == |items| then RBRACKET else COMMA
  {
  }

  lemma {:induction false} MembersStart(names: seq<bytes>, items: seq<Json>, k: nat)
    requires k <= |items| == |names| && forall j | 0 <= j < |items| :: Writable(items[j])
    requires k > 0
    ensures |WriteMembers(names, items, k)| > 0
    ensures WriteMembers(names, items, k)[0] == if k == |items| then RBRACE else COMMA
  {
  }

  lemma {:induction false} DoubleReads(d: Doc, i: nat)
    requires TextAt(d, i, DOUBLE_TEXT) && Stops(d, i + 3)
    ensures ValueAt(d, i) == Ok(JDouble, i + 3)
  {
    TextIs(d, i, DOUBLE_TEXT);
    var t := d.text[i..i + 3];
    assert d.text[i] == t[0] == ZERO && d.text[i + 1] == t[1] == DOT && d.text[i + 2] == t[2] == ZERO;
    DigitRun(d, i, i + 1);
    DigitRun(d, i + 2, i + 3);
    assert Number(d, i) == Ok(JDouble, i + 3);
  }

  lemma {:induction false} StringReads(d: Doc, i: nat, s: bytes)
    requires |s| <= UINT_LIMIT && TextAt(d, i, [QUOTE] + (Escape(s) + [QUOTE]))
    ensures d.text[i] == QUOTE && Chars(d, i + 1, [], false) == Ok(s, i + |Escape(s)| + 2)
  {
    var t := Escape(s) + [QUOTE];
    StartsAt(d, i, [QUOTE] + t);
    TextParts(d, i, [QUOTE], t, i + 1);
    EscapedChars(d, i + 1, [], s, i + |Escape(s)| + 2);
    assert [] + s == s;
  }

  /** A written value is read back, whatever follows it, unless that could continue a number. */
  lemma {:induction false} ValueReads(d: Doc, i: nat, v: Json, end: nat)
    requires Writable(v) && TextAt(d, i, Write(v)) && end == i + |Write(v)| && Stops(d, end)
    ensures ValueAt(d, i) == Ok(v, end)
    decreases v, 0
  {
    StartsAt(d, i, Write(v));
    match v
    case JInteger(n) => IntegerReads(d, i, n, end);
    case JDouble => DoubleReads(d, i);
    case JString(s) => StringReads(d, i, s);
    case JArray(items) =>
      TextParts(d, i, [LBRACKET], WriteItems(items, 0), i + 1);
      ItemsRead(d, i + 1, items, 0, end);
      assert items[..0] == [];
    case JObject(names, items) =>
      TextParts(d, i, [LBRACE], WriteMembers(names, items, 0), i + 1);
      MembersRead(d, i + 1, names, items, 0, end);
      assert items[..0] == [] && names[..0] == [];
    case _ =>
  }

  lemma TakeMore<T>(s: seq<T>, k: nat)
    requires k < |s|
    ensures s[..k] + [s[k]] == s[..k + 1]
  {
  }

  /** The first byte of an item or member lets it be read at once. */
  predicate Begins(b: byte) {
    !IsSpace(b) && b != SLASH && b != RBRACKET && b != RBRACE && b != COMMA
  }

  lemma {:induction false} ItemStep(d: Doc, p: nat, acc: seq<Json>, v: Json, q: nat)
    requires p < |d.text| && Begins(d.text[p]) && |acc| < UINT_LIMIT && ValueAt(d, p) == Ok(v, q)
    ensures Elements(d, p, acc, false) == Elements(d, q, acc + [v], true)
  {
  }

  lemma {:induction false} CommaStep(d: Doc, i: nat, acc: seq<Json>)
    requires i < |d.text| && d.text[i] == COMMA
    ensures Elements(d, i, acc, true) == Elements(d, i + 1, acc, false)
  {
  }

  /** Where the next item and the text after it stand. */
  lemma ItemText(d: Doc, i: nat, items: seq<Json>, k: nat, p: nat, q: nat)
    requires k < |items| && forall j | 0 <= j < |items| :: Writable(items[j])
    requires TextAt(d, i, WriteItems(items, k))
    requires p == (if k > 0 then i + 1 else i) && q == p + |Write(items[k])|
    ensures k > 0 ==> i < |d.text| && d.text[i] == COMMA
    ensures TextAt(d, p, Write(items[k])) && p < q && Begins(d.text[p])
    ensures TextAt(d, q, WriteItems(items, k + 1)) && Stops(d, q)
    ensures |WriteItems(items, k)| == q - i + |WriteItems(items, k + 1)|
  {
    var value, rest := Write(items[k]), WriteItems(items, k + 1);
    if k > 0 {
      TextParts(d, i, [COMMA], value + rest, i + 1);
      StartsAt(d, i, [COMMA]);
    } else {
      assert [] + (value + rest) == value + rest;
    }
    TextParts(d, p, value, rest, q);
    ValueStart(items[k]);
    StartsAt(d, p, value);
    ItemsStart(items, k + 1);
    StartsAt(d, q, rest);
  }

  lemma {:induction false} NextItem(d: Doc, i: nat, items: seq<Json>, k: nat, p: nat, q: nat)
    requires k < |items| <= UINT_LIMIT && p == (if k > 0 then i + 1 else i)
    requires k > 0 ==> i < |d.text| && d.text[i] == COMMA
    requires p < |d.text| && Begins(d.text[p]) && ValueAt(d, p) == Ok(items[k], q)
    ensures Elements(d, i, items[..k], k > 0) == Elements(d, q, items[..k + 1], true)
  {
    TakeMore(items, k);
    ItemStep(d, p, items[..k], items[k], q);
    if k > 0 {
      CommaStep(d, i, items[..k]);
    }
  }

  lemma {:induction false} ItemsRead(d: Doc, i: nat, items: seq<Json>, k: nat, end: nat)
    requires k <= |items| <= UINT_LIMIT && forall j | 0 <= j < |items| :: Writable(items[j])
    requires TextAt(d, i, WriteItems(items, k)) && end == i + |WriteItems(items, k)|
    ensures i <= |d.text| && Elements(d, i, items[..k], k > 0) == Ok(items, end)
    decreases items, |items| - k
  {
    if k == |items| {
      StartsAt(d, i, WriteItems(items, k));
      assert items[..k] == items;
    } else {
      var p := if k > 0 then i + 1 else i;
      var q := p + |Write(items[k])|;
      ItemText(d, i, items, k, p, q);
      ValueReads(d, p, items[k], q);
      NextItem(d, i, items, k, p, q);
      ItemsRead(d, q, items, k + 1, end);
    }
  }

  lemma {:induction false} ColonStep(d: Doc, c: nat, names: seq<bytes>, items: seq<Json>, q: nat, v: Json, end: nat)
    requires c < |d.text| && d.text[c] == COLON && |items| < UINT_LIMIT
    requires q <= |d.text| && Skip(d, c + 1) == Some(q) && ValueAt(d, q) == Ok(v, end)
    ensures MemberValue(d, c, names, items) == Members(d, end, names, items + [v], true)
  {
    assert Skip(d, c) == Some(c);
  }

  lemma {:induction false} NameStep(d: Doc, p: nat, names: seq<bytes>, items: seq<Json>, name: bytes, c: nat)
    requires p < |d.text| && d.text[p] == QUOTE && Chars(d, p + 1, [], false) == Ok(name, c)
    ensures Members(d, p, names, items, false) == MemberValue(d, c, names + [name], items)
  {
    assert Skip(d, p) == Some(p);
  }

  /** A name, its colon and its value are read as one member. */
  lemma MemberReads(
    d: Doc, p: nat, c: nat, q: nat, names: seq<bytes>, items: seq<Json>, name: bytes, v: Json, end: nat)
    requires |name| <= UINT_LIMIT && |items| < UINT_LIMIT
    requires TextAt(d, p, WriteName(name)) && c == p + |WriteName(name)| - 1
    requires c < |d.text| && q <= |d.text| && Skip(d, c + 1) == Some(q) && ValueAt(d, q) == Ok(v, end)
    ensures Members(d, p, names, items, false) == Members(d, end, names + [name], items + [v], true)
  {
    var t := [QUOTE] + (Escape(name) + [QUOTE]);
    assert WriteName(name) == t + [COLON];
    TextParts(d, p, t, [COLON], p + |t|);
    StringReads(d, p, name);
    StartsAt(d, c, [COLON]);
    NameStep(d, p, names, items, name, c);
    ColonStep(d, c, names + [name], items, q, v, end);
  }

  lemma {:induction false} MemberComma(d: Doc, i: nat, names: seq<bytes>, items: seq<Json>)
    requires i < |d.text| && d.text[i] == COMMA
    ensures Members(d, i, names, items, true) == Members(d, i + 1, names, items, false)
  {
  }

  /** Where the next member and the text after it stand. */
  lemma MemberText(d: Doc, i: nat, names: seq<bytes>, items: seq<Json>, k: nat, p: nat, q: nat, end: nat)
    requires k < |items| == |names| && forall j | 0 <= j < |items| :: Writable(items[j])
    requires TextAt(d, i, WriteMembers(names, items, k))
    requires p == (if k > 0 then i + 1 else i) && q == p + |WriteName(names[k])| && end == q + |Write(items[k])|
    ensures k > 0 ==> i < |d.text| && d.text[i] == COMMA
    ensures TextAt(d, p, WriteName(names[k]))
    ensures TextAt(d, q, Write(items[k])) && q < end && Begins(d.text[q])
    ensures TextAt(d, end, WriteMembers(names, items, k + 1)) && Stops(d, end)
    ensures |WriteMembers(names, items, k)| == end - i + |WriteMembers(names, items, k + 1)|
  {
    var name, value, rest := WriteName(names[k]), Write(items[k]), WriteMembers(names, items, k + 1);
    if k > 0 {
      TextParts(d, i, [COMMA], name + (value + rest), i + 1);
      StartsAt(d, i, [COMMA]);
    } else {
      assert [] + (name + (value + rest)) == name + (value + rest);
    }
    TextParts(d, p, name, value + rest, q);
    TextParts(d, q, value, rest, end);
    ValueStart(items[k]);
    StartsAt(d, q, value);
    MembersStart(names, items, k + 1);
    StartsAt(d, end, rest);
  }

  lemma {:induction false} NextMember(
    d: Doc, i: nat, names: seq<bytes>, items: seq<Json>, k: nat, p: nat, q: nat, end: nat)
    requires k < |items| == |names| && |items| <= UINT_LIMIT && |names[k]| <= UINT_LIMIT
    requires p == (if k > 0 then i + 1 else i) && q == p + |WriteName(names[k])|
    requires k > 0 ==> i < |d.text| && d.text[i] == COMMA
    requires TextAt(d, p, WriteName(names[k]))
    requires q < |d.text| && Begins(d.text[q]) && ValueAt(d, q) == Ok(items[k], end)
    ensures i <= |d.text|
            && Members(d, i, names[..k], items[..k], k > 0) == Members(d, end, names[..k + 1], items[..k + 1], true)
  {
    TakeMore(items, k);
    TakeMore(names, k);
    MemberReads(d, p, q - 1, q, names[..k], items[..k], names[k], items[k], end);
    if k > 0 {
      MemberComma(d, i, names[..k], items[..k]);
    }
  }

  lemma {:induction false} MembersRead(d: Doc, i: nat, names: seq<bytes>, items: seq<Json>, k: nat, end: nat)
    requires k <= |items| == |names| && |items| <= UINT_LIMIT && forall j | 0 <= j < |items| :: Writable(items[j])
    requires forall j | 0 <= j < |names| :: |names[j]| <= UINT_LIMIT
    requires TextAt(d, i, WriteMembers(names, items, k)) && end == i + |WriteMembers(names, items, k)|
    ensures i <= |d.text| && Members(d, i, names[..k], items[..k], k > 0) == Ok((names, items), end)
    decreases items, |items| - k
  {
    if k == |items| {
      StartsAt(d, i, WriteMembers(names, items, k));
      assert items[..k] == items && names[..k] == names;
    } else {
      var p := if k > 0 then i + 1 else i;
      var q := p + |WriteName(names[k])|;
      var z := q + |Write(items[k])|;
      MemberText(d, i, names, items, k, p, q, z);
      ValueReads(d, q, items[k], z);
      NextMember(d, i, names, items, k, p, q, z);
      MembersRead(d, z, names, items, k + 1, end);
    }
  }

  /** A text that is one value and nothing else. */
  lemma WholeText(t: bytes, comments: bool, v: Json)
    requires |t| > 0 && !IsSpace(t[0]) && t[0] != SLASH && t[0] != 0xEF
    requires ValueAt(Doc(t, comments), 0) == Ok(v, |t|)
    ensures ParseText(t, comments) == Some(v)
  {
    var d := Doc(t, comments);
    assert AfterMark(t) == t;
    assert Skip(d, 0) == Some(0) && Skip(d, |t|) == Some(|t|);
  }

  lemma {:induction false} OwnText(t: bytes, comments: bool)
    ensures TextAt(Doc(t, comments), 0, t)
  {
    assert t[0..0 + |t|] == t;
    IsText(Doc(t, comments), 0, t);
  }

  /** Every tree has a text from which the parser's grammar reads exactly that tree. */
  lemma {:induction false} WriteParses(v: Json, comments: bool)
    requires Writable(v)
    ensures ParseText(Write(v), comments) == Some(v)
  {
    var t := Write(v);
    ValueStart(v);
    OwnText(t, comments);
    ValueReads(Doc(t, comments), 0, v, |t|);
    WholeText(t, comments, v);
  }
}
