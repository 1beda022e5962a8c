/** How much text a tree takes, and which texts are short enough for all of its sizes to fit their types. */
module Spans {
  import opened Bytes
  import opened Unicode
  import opened Grammar
  import opened Layout
  import opened Preorder
  import opened Styles
  import opened Sizes
  import opened Ledger
  import opened Reader
  import Writer

  /** Every part of the tree could be written in `n` characters: an item takes two with its comma, a member five
      and its name, and a container its brackets. */
  predicate Spread(v: Json, n: int) {
    match v
    case JString(s) => |s| + 2 <= n
    case JArray(items) => 2 * |items| + 1 <= n && forall k | 0 <= k < |items| :: Spread(items[k], n)
    case JObject(names, items) =>
      && |names| == |items| && NameBytes(names) + 4 * |items| + 1 <= n
      && forall k | 0 <= k < |items| :: Spread(items[k], n)
    case _ => true
  }

  predicate AllSpread(items: seq<Json>, n: int) {
    forall k | 0 <= k < |items| :: Spread(items[k], n)
  }

  lemma {:induction false} SpreadMore(v: Json, m: int, n: int)
    requires Spread(v, m) && m <= n
    ensures Spread(v, n)
    decreases v
  {
    if v.JArray? || v.JObject? {
      forall k | 0 <= k < |v.items| ensures Spread(v.items[k], n) {
        SpreadMore(v.items[k], m, n);
      }
    }
  }

  /** A string takes at least a character for each byte, and the closing quote. */
  lemma {:induction false} CharsSpan(d: Doc, i: nat, acc: bytes, escaped: bool)
    requires i <= |d.text| && Chars(d, i, acc, escaped).Ok?
    ensures var r := Chars(d, i, acc, escaped); |r.value| + 1 <= |acc| + (r.next - i)
    decreases |d.text| - i
  {
    if escaped {
      if d.text[i] == 0x75 {
        var c := EscapedChar(d, i + 1);
        CharsSpan(d, c.next, acc + Encode(c.value), false);
      } else {
        CharsSpan(d, i + 1, acc + [Unescape(d.text[i])], false);
      }
    } else if d.text[i] == BACKSLASH {
      CharsSpan(d, i + 1, acc, true);
    } else if d.text[i] != QUOTE {
      CharsSpan(d, i + 1, acc + [d.text[i]], false);
    }
  }

  /** The text of a value bounds all of its parts. */
  lemma {:induction false} ValueSpan(d: Doc, i: nat)
    requires i <= |d.text| && ValueAt(d, i).Ok?
    ensures Spread(ValueAt(d, i).value, ValueAt(d, i).next - i)
    decreases |d.text| - i, 0
  {
    if At(d, i) == LBRACE {
      MembersSpan(d, i + 1, [], [], false, ValueAt(d, i).next - i);
    } else if At(d, i) == LBRACKET {
      ElementsSpan(d, i + 1, [], false, ValueAt(d, i).next - i);
    } else if At(d, i) == QUOTE {
      CharsSpan(d, i + 1, [], false);
    }
  }

  lemma {:induction false} ElementsSpan(d: Doc, i: nat, items: seq<Json>, comma: bool, n: int)
    requires i <= |d.text| && Elements(d, i, items, comma).Ok?
    requires AllSpread(items, n) && Elements(d, i, items, comma).next - i <= n
    ensures var r := Elements(d, i, items, comma);
      AllSpread(r.value, n) && 2 * |r.value| <= 2 * |items| + (r.next - i) - (if comma then 1 else 0)
    decreases |d.text| - i, 2
  {
    var j := Skip(d, i).value;
    if At(d, j) == RBRACKET {
    } else if comma {
      ElementsSpan(d, j + 1, items, false, n);
    } else {
      var v := ValueAt(d, j);
      ValueSpan(d, j);
      var r := Elements(d, v.next, items + [v.value], true);
      SpreadMore(v.value, v.next - j, n);
      ElementsSpan(d, v.next, items + [v.value], true, n);
    }
  }

  lemma {:induction false} MembersSpan(
    d: Doc, i: nat, names: seq<bytes>, items: seq<Json>, comma: bool, n: int)
    requires i <= |d.text| && Members(d, i, names, items, comma).Ok? && |names| == |items|
    requires AllSpread(items, n) && Members(d, i, names, items, comma).next - i <= n
    ensures var r := Members(d, i, names, items, comma);
      && |r.value.0| == |r.value.1| && AllSpread(r.value.1, n)
      && NameBytes(r.value.0) + 4 * |r.value.1|
         <= NameBytes(names) + 4 * |items| + (r.next - i) - (if comma then 1 else 0)
    decreases |d.text| - i, 2
  {
    var j := Skip(d, i).value;
    if At(d, j) == RBRACE {
    } else if At(d, j) == COMMA {
      MembersSpan(d, j + 1, names, items, false, n);
    } else {
      var name := Chars(d, j + 1, [], false);
      CharsSpan(d, j + 1, [], false);
      AppendName(names, name.value, items, 0);
      MemberValueSpan(d, name.next, names + [name.value], items, n);
    }
  }

  lemma {:induction false} MemberValueSpan(d: Doc, i: nat, names: seq<bytes>, items: seq<Json>, n: int)
    requires i <= |d.text| && MemberValue(d, i, names, items).Ok? && |names| == |items| + 1
    requires AllSpread(items, n) && MemberValue(d, i, names, items).next - i <= n
    ensures var r := MemberValue(d, i, names, items);
      && |r.value.0| == |r.value.1| && AllSpread(r.value.1, n)
      && NameBytes(r.value.0) + 4 * |r.value.1| <= NameBytes(names) + 4 * |items| + (r.next - i) + 1
    decreases |d.text| - i, 3
  {
    var k := Skip(d, i).value;
    var j := Skip(d, k + 1).value;
    var v := Value(d, k + 1);
    ValueSpan(d, j);
    var r := Members(d, v.next, names, items + [v.value], true);
    SpreadMore(v.value, v.next - j, n);
    MembersSpan(d, v.next, names, items + [v.value], true, n);
  }

  // ----- short texts -----

  /** A text of `n` characters is short: 2^31 at most, and with 8 bytes for a pointer and 16 for an entry at most
      5 * 2^27. */
  predicate ShortText(o: Options, n: nat) {
    n <= 0x8000_0000 && n * o.host.pointerSize <= 2 * WORD && n * o.host.entrySize <= 5 * 0x8000_0000
  }

  lemma {:induction false} NameBytesAtLeast(names: seq<bytes>)
    ensures NameBytes(names) >= |names|
  {
    if |names| > 0 {
      NameBytesAtLeast(names[..|names| - 1]);
    }
  }

  lemma Cancel(a: nat, x: nat, y: nat)
    requires a * x < a * y
    ensures x < y
  {
  }

  /** `c` parts of `s` bytes, written in `n` characters with `a` for each part. */
  lemma PartsFit(c: nat, s: nat, a: nat, n: nat, limit: nat)
    requires a * c + 1 <= n && n * s <= a * limit && 0 < limit
    ensures c * s < limit
  {
    if s > 0 {
      assert a * (c * s) + s == (a * c + 1) * s <= n * s;
      Cancel(a, c * s, limit);
    }
  }

  /** The sizes of a short text's tree are changed by no conversion. */
  lemma {:induction false} SpreadRoomy(o: Options, v: Json, n: nat)
    requires Spread(v, n) && ShortText(o, n)
    ensures BlocksRoomy(o, v)
    decreases v, 0
  {
    RoomIs(o, FirstHead(v, None, 0));
    match v
    case JArray(items) =>
      PartsFit(|items|, o.host.pointerSize, 2, n, WORD);
      AllRoomy(o, items, n);
    case JObject(names, items) =>
      NameBytesAtLeast(names);
      PartsFit(|items|, o.host.entrySize, 5, n, 0x8000_0000);
      AllRoomy(o, items, n);
    case _ =>
  }

  lemma {:induction false} AllRoomy(o: Options, items: seq<Json>, n: nat)
    requires AllSpread(items, n) && ShortText(o, n)
    ensures AllBlocksRoomy(o, items)
    decreases items, 0
  {
    if |items| > 0 {
      AllRoomy(o, items[..|items| - 1], n);
      SpreadRoomy(o, items[|items| - 1], n);
    }
  }

  /** The second pass over a short text stays inside its blocks, whatever the allocator answers. */
  lemma {:induction false} ShortTextRoomy(o: Options, text: bytes)
    requires ParseText(text, o.comments).Some? && ShortText(o, |text|) && NodeAsk(o).room
    ensures TreeRoomy(o, ParseText(text, o.comments).value) && !TreeOverruns(o, ParseText(text, o.comments).value)
  {
    var d, v := Doc(AfterMark(text), o.comments), ParseText(text, o.comments).value;
    var i := Skip(d, 0).value;
    ValueSpan(d, i);
    SpreadMore(v, ValueAt(d, i).next - i, |text|);
    SpreadRoomy(o, v, |text|);
    OverrunsExactly(o, v);
  }

  // ----- what is requested is what is written -----

  /** The bytes written to the block of a node. */
  function Extent(o: Options, n: Node): nat {
    match n.block
    case Items(refs) => |refs| * o.host.pointerSize
    case Entries(slots, area) => |slots| * o.host.entrySize + |area|
    case Text(chars) => |chars|
    case _ => 0
  }

  predicate Charges(o: Options, first: seq<Node>, asked: seq<Option<Ask>>) {
    |first| == |asked| && forall k | 0 <= k < |first| :: asked[k] == Charge(o, first[k])
  }

  lemma {:induction false} BothCharges(
    o: Options, first: seq<Node>, asked: seq<Option<Ask>>, first': seq<Node>, asked': seq<Option<Ask>>)
    requires Charges(o, first, asked) && Charges(o, first', asked')
    ensures Charges(o, first + first', asked + asked')
  {
  }

  lemma {:induction false} TreeCharges(o: Options, v: Json, parent: Option<nat>, at: nat)
    ensures Charges(o, Lay(FirstHead, v, parent, at), Lay(ChargeHead(o), v, parent, at))
    decreases v, 0
  {
    if v.JArray? || v.JObject? {
      ItemsCharges(o, v.items, at, at + 1);
      BothCharges(o, [FirstHead(v, parent, at)], [Charge(o, FirstHead(v, parent, at))],
                  LayAll(FirstHead, v.items, at, at + 1), LayAll(ChargeHead(o), v.items, at, at + 1));
    }
  }

  lemma {:induction false} LastLaid<N>(
    head: Heading<N>, items: seq<Json>, owner: nat, base: nat, rest: seq<Json>, v: Json, pos: nat)
    requires |items| > 0 && rest == items[..|items| - 1] && v == items[|items| - 1] && pos == base + SizeAll(rest)
    ensures LayAll(head, items, owner, base) == LayAll(head, rest, owner, base) + Lay(head, v, Some(owner), pos)
  {
  }

  lemma {:induction false} ItemsCharges(o: Options, items: seq<Json>, owner: nat, base: nat)
    ensures Charges(o, LayAll(FirstHead, items, owner, base), LayAll(ChargeHead(o), items, owner, base))
    decreases items, 0
  {
    if |items| > 0 {
      var rest, v := items[..|items| - 1], items[|items| - 1];
      var pos := base + SizeAll(rest);
      ItemsCharges(o, rest, owner, base);
      TreeCharges(o, v, Some(owner), pos);
      LastLaid(FirstHead, items, owner, base, rest, v, pos);
      LastLaid(ChargeHead(o), items, owner, base, rest, v, pos);
      BothCharges(o, LayAll(FirstHead, rest, owner, base), LayAll(ChargeHead(o), rest, owner, base),
                  Lay(FirstHead, v, Some(owner), pos), Lay(ChargeHead(o), v, Some(owner), pos));
    }
  }

  lemma {:induction false} BlockExact(o: Options, first: Node, last: Node)
    requires FilledExactly(first, last) && Roomy(Charge(o, first))
    ensures Extent(o, last) == Amount(Charge(o, first))
  {
    RoomIs(o, first);
  }

  /** In a tree whose sizes no conversion changes, each block is requested with exactly the bytes that are written
      to it. */
  lemma {:induction false} BlocksExact(o: Options, v: Json)
    requires WellFormed(v) && TreeRoomy(o, v)
    ensures var first, last := Lay(FirstHead, v, None, 0), Lay(FinalHead, v, None, 0);
      |first| == |last| && forall k | 0 <= k < |last| :: Extent(o, last[k]) == Amount(Charge(o, first[k]))
  {
    var first, last, asked := Lay(FirstHead, v, None, 0), Lay(FinalHead, v, None, 0), Lay(ChargeHead(o), v, None, 0);
    TreeFilled(v, None, 0);
    TreeCharges(o, v, None, 0);
    BlocksAccount(o, v, None, 0);
    forall k | 0 <= k < |last| ensures Extent(o, last[k]) == Amount(Charge(o, first[k])) {
      assert FilledExactly(first[k], last[k]) && Roomy(asked[k]);
      BlockExact(o, first[k], last[k]);
    }
  }

  // ----- a text that is too long -----

  /** An object of `n` members, each an empty name and a zero. */
  function Zeros(n: nat): Json {
    JObject(seq(n, _ => []), seq(n, _ => JInteger(0)))
  }

  lemma {:induction false} EmptyNames(names: seq<bytes>)
    requires forall k | 0 <= k < |names| :: names[k] == []
    ensures NameBytes(names) == |names|
    decreases |names|
  {
    if |names| > 0 {
      EmptyNames(names[..|names| - 1]);
    }
  }

  lemma {:induction false} NoBlocks(o: Options, items: seq<Json>)
    requires forall k | 0 <= k < |items| :: items[k] == JInteger(0)
    ensures LargestBlockOf(o, items) == 0
    decreases |items|
  {
    if |items| > 0 {
      NoBlocks(o, items[..|items| - 1]);
    }
  }

  lemma {:induction false} ZerosText(names: seq<bytes>, items: seq<Json>, k: nat)
    requires k <= |items| == |names|
    requires forall j | 0 <= j < |items| :: names[j] == [] && items[j] == JInteger(0)
    ensures |Writer.WriteMembers(names, items, k)| == 5 * (|items| - k) + (if k == 0 < |items| then 0 else 1)
    decreases |items| - k
  {
    if k < |items| {
      ZerosText(names, items, k + 1);
      assert |Writer.WriteName(names[k])| == 3 && |Writer.Write(items[k])| == 1;
    }
  }

  lemma {:induction false} ZerosWritten(n: nat, text: bytes, v: Json)
    requires 0 < n <= UINT_LIMIT && v == Zeros(n) && text == Writer.Write(v)
    ensures |text| == 5 * n + 1 && ParseText(text, false) == Some(v)
  {
    Writer.WriteParses(v, false);
    ZerosText(v.names, v.items, 0);
  }

  lemma {:induction false} ZerosCounted(n: nat, v: Json, head: Node)
    requires 0 < n && v == Zeros(n) && head == FirstHead(v, None, 0)
    ensures head.kind == KObject && head.length == n && head.nameBytes == n
  {
    EmptyNames(v.names);
  }

  /** The largest block of such a tree is its only one. */
  lemma {:induction false} ZerosBlock(o: Options, n: nat, v: Json, head: Node)
    requires 0 < n && v == Zeros(n) && head == FirstHead(v, None, 0)
    ensures LargestBlock(o, v) == Request(o, head) && (TreeRoomy(o, v) ==> Room(o, head))
  {
    ZerosCounted(n, v, head);
    NoBlocks(o, v.items);
  }

  lemma {:induction false} TooLong(o: Options, v: Json, head: Node)
    requires o == Bare(Host(_ => true, 40, 8, 16))
    requires head.kind == KObject && head.length == 0x800_0000 && head.nameBytes == 0x800_0000
    requires LargestBlock(o, v) == Request(o, head) && (TreeRoomy(o, v) ==> Room(o, head))
    ensures Affordable(o, v) && !TreeRoomy(o, v) && ValuesSize(o, head) == -0x8000_0000
  {
    assert head.length * o.host.entrySize == 0x8000_0000;
    assert ValuesSize(o, head) == -0x8000_0000;
  }

  /** The bound is sharp: with 16 bytes for an entry, a text of 5 * 2^27 + 1 characters, in a program whose
      allocator never fails, makes values_size negative. */
  lemma {:induction false} LongTextOverruns() returns (text: bytes, v: Json, o: Options)
    ensures o == Bare(Host(_ => true, 40, 8, 16)) && |text| == 5 * 0x800_0000 + 1
    ensures ParseText(text, false) == Some(v) && Affordable(o, v) && TreeOverruns(o, v)
    ensures ValuesSize(o, FirstHead(v, None, 0)) == -0x8000_0000
  {
    o, v := Bare(Host(_ => true, 40, 8, 16)), Zeros(0x800_0000);
    text := Writer.Write(v);
    var head := FirstHead(v, None, 0);
    ZerosWritten(0x800_0000, text, v);
    ZerosCounted(0x800_0000, v, head);
    ZerosBlock(o, 0x800_0000, v, head);
    TooLong(o, v, head);
    OverrunsExactly(o, v);
  }
}
