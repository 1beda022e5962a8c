/** The writes of the parser to a single node, and what they make of the node's record. */
module Writes {
  import opened Bytes
  import opened Grammar
  import opened Preorder
  import opened Layout
  import opened Context
  import opened Arena
  import opened Styles
  import opened Progress

  /** What the second pass does to a node it reaches: give it a block of exactly the counted size. */
  function Prepared(n: Node): Node {
    match n.kind
    case KArray =>
      if n.length == 0 then n else n.(block := Items(Blank(n.length)), length := 0)
    case KObject =>
      if n.length == 0 then n
      else n.(block := Entries(BlankEntries(n.length), Blank(n.nameBytes)), nameBytes := 0, nextName := 0, length := 0)
    case KString =>
      n.(block := Text(Blank(n.length + 1)), length := 0)
    case _ => n
  }

  /** The cell at `at` exists in the block of characters. */
  predicate CanPut(n: Node, at: nat) {
    (n.block.Text? && at < |n.block.chars|) || (n.block.Entries? && at < |n.block.area|)
  }

  function PutByte(n: Node, at: nat, b: byte): Node
    requires CanPut(n, at)
  {
    if n.block.Text? then n.(block := Text(n.block.chars[at := Some(b)]))
    else n.(block := n.block.(area := n.block.area[at := Some(b)]))
  }

  /** First pass: a name of length `len` has been read. */
  function Counted(n: Node, len: nat): Node {
    n.(nameBytes := n.nameBytes + (len + 1))
  }

  predicate CanName(n: Node) {
    n.block.Entries? && n.length < |n.block.slots|
  }

  /** Second pass: the name just written belongs to the next entry. */
  function Named(n: Node, len: nat): Node
    requires CanName(n)
  {
    n.(block := n.block.(slots := n.block.slots[n.length := n.block.slots[n.length].(name := Some(n.nextName))]),
       nextName := n.nextName + (len + 1))
  }

  // ----- a node the second pass reaches -----

  lemma EmptyFirst<T>(a: seq<T>, b: seq<T>, ab: seq<T>)
    requires |a| == 0 && ab == a + b
    ensures ab == b
  {
  }

  lemma {:induction false} PreparedArray(ctx: Ctx, whole: Json, items: seq<Json>, at: nat, c: Ctx, frame: Node)
    requires Hole(ctx, whole) == Some(JArray(items)) && c == InArray([], ctx)
    requires frame == ArrayFrame(Filling(whole), c)
    ensures Prepared(FirstHead(JArray(items), Owner(ctx), at)) == frame
  {
    assert FinalItems(c, whole) == items;
    if |items| > 0 {
      var refs, blank := Refs(c.items, Count(ctx) + 1), Blank(|items|);
      EmptyFirst(refs, blank, refs + blank);
    }
  }

  lemma {:induction false} PreparedObject(
    ctx: Ctx, whole: Json, names: seq<bytes>, items: seq<Json>, at: nat, c: Ctx, frame: Node)
    requires Hole(ctx, whole) == Some(JObject(names, items)) && |names| == |items| && c == InObject([], [], ctx)
    requires frame == ObjectFrame(Filling(whole), c, [])
    ensures Prepared(FirstHead(JObject(names, items), Owner(ctx), at)) == frame
  {
    assert FinalItems(c, whole) == items && FinalNames(c, whole) == names;
    if |items| > 0 {
      var slots, blankSlots := Slots(c.names, c.items, Count(ctx) + 1), BlankEntries(|items|);
      EmptyFirst(slots, blankSlots, slots + blankSlots);
      var area, blank := NameArea(c.names) + Cells([]), Blank(NameBytes(names));
      EmptyFirst(area, blank, area + blank);
    }
  }

  lemma {:induction false} PreparedString(ctx: Ctx, whole: Json, t: bytes, at: nat)
    requires Hole(ctx, whole) == Some(JString(t))
    ensures Prepared(FirstHead(JString(t), Owner(ctx), at)) == StringNode(Filling(whole), ctx, [])
  {
    BlankString(ctx, whole, |t|);
    SizedString(t, Owner(ctx), at);
  }

  lemma SizedString(t: bytes, parent: Option<nat>, at: nat)
    ensures Prepared(FirstHead(JString(t), parent, at)) == NewNode(KString, parent).(block := Text(Blank(|t| + 1)))
  {
  }

  lemma BlankString(ctx: Ctx, whole: Json, n: nat)
    requires FinalLength(ctx, whole) == n
    ensures StringNode(Filling(whole), ctx, []) == NewNode(KString, Owner(ctx)).(block := Text(Blank(n + 1)))
  {
    var cells, blank := Cells([]), Blank(n + 1);
    EmptyFirst(cells, blank, cells + blank);
  }

  lemma PreparedLeaf(v: Json, parent: Option<nat>, at: nat)
    requires !v.JArray? && !v.JObject? && !v.JString?
    ensures Prepared(FirstHead(v, parent, at)) == FinalHead(v, parent, at)
  {
  }

  // ----- characters -----

  lemma PutCell(acc: bytes, b: byte, prefix: seq<Option<byte>>, n: nat)
    requires n > 0
    ensures (prefix + Cells(acc) + Blank(n))[|prefix| + |acc| := Some(b)] == prefix + Cells(acc + [b]) + Blank(n - 1)
  {
  }

  lemma PutInString(ph: Phase, ctx: Ctx, acc: bytes, b: byte)
    requires ph.Filling? && HasRoom(ph, ctx, false, acc + [b])
    ensures CanPut(StringNode(ph, ctx, acc), |acc|)
    ensures PutByte(StringNode(ph, ctx, acc), |acc|, b) == StringNode(ph, ctx, acc + [b])
  {
    var n := FinalLength(ctx, ph.whole) + 1 - |acc|;
    PutCell(acc, b, [], n);
    assert [] + Cells(acc) + Blank(n) == Cells(acc) + Blank(n);
    assert [] + Cells(acc + [b]) + Blank(n - 1) == Cells(acc + [b]) + Blank(n - 1);
  }

  lemma PutInName(ph: Phase, ctx: Ctx, acc: bytes, b: byte)
    requires ph.Filling? && HasRoom(ph, ctx, true, acc + [b])
    ensures CanPut(ObjectFrame(ph, ctx, acc), NameBytes(ctx.names) + |acc|)
    ensures PutByte(ObjectFrame(ph, ctx, acc), NameBytes(ctx.names) + |acc|, b) == ObjectFrame(ph, ctx, acc + [b])
  {
    var n := NameBytes(FinalNames(ctx, ph.whole)) - NameBytes(ctx.names) - |acc|;
    PutCell(acc, b, NameArea(ctx.names), n);
  }

  /** The closing quote of a string value: its terminating NUL and its length. */
  lemma {:induction false} CloseStringNode(ph: Phase, ctx: Ctx, acc: bytes, at: nat)
    requires !ph.Releasing? && (ph.Filling? ==> Hole(ctx, ph.whole) == Some(JString(acc)))
    ensures var n := StringNode(ph, ctx, acc);
      && (ph.Filling? ==> CanPut(n, |acc|))
      && (if ph.Filling? then PutByte(n, |acc|, NUL) else n).(length := |acc|)
         == HeadOf(ph)(JString(acc), Owner(ctx), at)
  {
    if ph.Filling? {
      assert (Cells(acc) + Blank(1))[|acc| := Some(NUL)] == Cells(acc) + [Some(NUL)];
    }
  }

  /** The closing quote of a name in the first pass: the room for the name is counted. */
  lemma CountNameNode(ph: Phase, ctx: Ctx, acc: bytes, ctx': Ctx)
    requires ctx.InObject? && |ctx.names| == |ctx.items| && ph.Counting?
    requires ctx' == InObject(ctx.names + [acc], ctx.items, ctx.outer)
    ensures Counted(ObjectFrame(ph, ctx, acc), |acc|) == Frame(ph, ctx')
  {
    AppendName(ctx.names, acc, ctx.items, Count(ctx.outer) + 1);
  }

  /** The name area and the entries after one more name. */
  lemma {:induction false} WrittenNames(
    names: seq<bytes>, acc: bytes, items: seq<Json>, base: nat, rest: nat, k: nat, area: seq<Option<byte>>,
        slots: seq<Entry>)
    requires rest > 0 && k > 0 && |names| == |items|
    requires area == NameArea(names) + Cells(acc) + Blank(rest)
    requires slots == Slots(names, items, base) + BlankEntries(k)
    ensures area[NameBytes(names) + |acc| := Some(NUL)] == NameArea(names + [acc]) + Cells([]) + Blank(rest - 1)
    ensures slots[|names| := Entry(Some(NameBytes(names)), None)]
            == Slots(names + [acc], items, base) + BlankEntries(k - 1)
    ensures NameBytes(names + [acc]) == NameBytes(names) + |acc| + 1 && slots[|names|] == Entry(None, None)
  {
    AppendName(names, acc, items, base);
  }

  /** The node of the object before the closing quote of a name in the second pass. */
  lemma {:induction false} NameBefore(ph: Phase, ctx: Ctx, acc: bytes, base: nat, rest: nat, k: nat)
    requires ctx.InObject? && |ctx.names| == |ctx.items| && ph.Filling?
    requires HasRoom(ph, ctx, true, acc) && base == Count(ctx.outer) + 1
    requires rest == NameBytes(FinalNames(ctx, ph.whole)) - NameBytes(ctx.names) - |acc|
    requires k == |FinalNames(ctx, ph.whole)| - |ctx.names|
    ensures rest > 0 && k > 0
    ensures ObjectFrame(ph, ctx, acc) == NewNode(KObject, Owner(ctx.outer)).(
              length := |ctx.items|,
              block := Entries(Slots(ctx.names, ctx.items, base) + BlankEntries(k),
                               NameArea(ctx.names) + Cells(acc) + Blank(rest)),
              nextName := NameBytes(ctx.names))
  {
  }

  /** The node after it. */
  lemma {:induction false} NameAfter(ph: Phase, ctx: Ctx, acc: bytes, ctx': Ctx, base: nat, rest: nat, k: nat)
    requires ctx.InObject? && |ctx.names| == |ctx.items| && ph.Filling? && rest > 0 && k > 0
    requires ctx' == InObject(ctx.names + [acc], ctx.items, ctx.outer)
    requires HasRoom(ph, ctx, true, acc) && base == Count(ctx.outer) + 1
    requires rest == NameBytes(FinalNames(ctx, ph.whole)) - NameBytes(ctx.names) - |acc|
    requires k == |FinalNames(ctx, ph.whole)| - |ctx.names|
    requires NameBytes(ctx'.names) == NameBytes(ctx.names) + |acc| + 1
    ensures Frame(ph, ctx') == NewNode(KObject, Owner(ctx.outer)).(
              length := |ctx.items|,
              block := Entries(Slots(ctx'.names, ctx.items, base) + BlankEntries(k - 1),
                               NameArea(ctx'.names) + Cells([]) + Blank(rest - 1)),
              nextName := NameBytes(ctx'.names))
  {
    assert FinalNames(ctx', ph.whole) == FinalNames(ctx, ph.whole);
    assert FinalItems(ctx', ph.whole) == FinalItems(ctx, ph.whole);
  }

  /** The closing quote of a name in the second pass: its terminating NUL, its entry, and the room for the
      next name. */
  lemma WriteNameNode(ph: Phase, ctx: Ctx, acc: bytes, ctx': Ctx)
    requires ctx.InObject? && |ctx.names| == |ctx.items| && ph.Filling?
    requires ctx' == InObject(ctx.names + [acc], ctx.items, ctx.outer)
    requires HasRoom(ph, ctx, true, acc)
    ensures var n := ObjectFrame(ph, ctx, acc);
      && n.nextName == NameBytes(ctx.names)
      && CanPut(n, n.nextName + |acc|)
      && CanName(PutByte(n, n.nextName + |acc|, NUL))
      && Named(PutByte(n, n.nextName + |acc|, NUL), |acc|) == Frame(ph, ctx')
  {
    var names, base := ctx.names, Count(ctx.outer) + 1;
    var rest := NameBytes(FinalNames(ctx, ph.whole)) - NameBytes(names) - |acc|;
    var k := |FinalNames(ctx, ph.whole)| - |names|;
    NameBefore(ph, ctx, acc, base, rest, k);
    var n := ObjectFrame(ph, ctx, acc);
    WrittenNames(names, acc, ctx.items, base, rest, k, n.block.area, n.block.slots);
    NameAfter(ph, ctx, acc, ctx', base, rest, k);
  }

  // ----- a new node after the visited ones -----

  lemma {:induction false} NewContainer(ph: Phase, ctx: Ctx, c: Ctx, kind: Kind, v: Json, n: Node)
    requires (kind == KArray && c == InArray([], ctx)) || (kind == KObject && c == InObject([], [], ctx))
    requires Placed(ph, c) && !ph.Releasing?
    requires ph.Filling? ==> Hole(ctx, ph.whole) == Some(v)
    requires n == if ph.Counting? then NewNode(kind, Owner(ctx)) else Prepared(FirstHead(v, Owner(ctx), Count(ctx)))
    ensures n == Frame(ph, c)
  {
    if ph.Filling? {
      if kind == KArray {
        PreparedArray(ctx, ph.whole, v.items, Count(ctx), c, ArrayFrame(ph, c));
      } else {
        PreparedObject(ctx, ph.whole, v.names, v.items, Count(ctx), c, ObjectFrame(ph, c, []));
      }
    }
  }

  lemma {:induction false} PushContainer(ph: Phase, ctx: Ctx, n: Node, c: Ctx, nodes: seq<Node>)
    requires c == InArray([], ctx) || c == InObject([], [], ctx)
    requires n == Frame(ph, c) && nodes == Open(StyleOf(ph), ctx) + [n]
    ensures nodes == Open(StyleOf(ph), c)
    ensures Count(c) == Count(ctx) + 1
  {
    OpenContainer(StyleOf(ph), c, n);
    OpenIsOpenAs(StyleOf(ph), c);
  }

  lemma {:induction false} PushLeaf(ph: Phase, ctx: Ctx, n: Node, v: Json, nodes: seq<Node>)
    requires !v.JArray? && !v.JObject?
    requires n == HeadOf(ph)(v, Owner(ctx), Count(ctx)) && nodes == Open(StyleOf(ph), ctx) + [n]
    ensures nodes == Open(StyleOf(ph), ctx) + Lay(HeadOf(ph), v, Owner(ctx), Count(ctx))
    ensures Size(v) == 1
  {
  }
}
