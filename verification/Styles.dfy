/** What each walk over the arena records for complete values and for open containers. */
module Styles {
  import opened Bytes
  import opened Grammar
  import opened Preorder
  import opened Layout
  import opened Context
  import opened Arena

  /** What a walk over the arena is doing: counting (first pass), filling the blocks of `whole`
      (second pass), or releasing the tree `whole` from its last node to its first. */
  datatype Phase = Counting | Filling(whole: Json) | Releasing(whole: Json)

  /** The node of a complete value after the first pass: counts, but no blocks. */
  function FirstHead(v: Json, parent: Option<nat>, at: nat): Node {
    match v
    case JNull => NewNode(KNull, parent)
    case JBool(b) => NewNode(KBoolean, parent).(flag := b)
    case JInteger(n) => NewNode(KInteger, parent).(integer := n)
    case JDouble => NewNode(KDouble, parent)
    case JString(t) => NewNode(KString, parent).(length := |t|)
    case JArray(items) => NewNode(KArray, parent).(length := |items|)
    case JObject(names, items) =>
      NewNode(KObject, parent).(length := |items|, nameBytes := NameBytes(names))
  }

  /** The node of a complete value after the second pass, placed at index `at`. */
  function FinalHead(v: Json, parent: Option<nat>, at: nat): Node {
    match v
    case JString(t) =>
      FirstHead(v, parent, at).(block := Text(Cells(t) + [Some(NUL)]))
    case JArray(items) =>
      if |items| == 0 then FirstHead(v, parent, at)
      else FirstHead(v, parent, at).(block := Items(Refs(items, at + 1)))
    case JObject(names, items) =>
      if |items| == 0 then FirstHead(v, parent, at)
      else FirstHead(v, parent, at).(
        nameBytes := 0,
        block := Entries(Slots(names, items, at + 1), NameArea(names)),
        nextName := NameBytes(names))
    case _ => FirstHead(v, parent, at)
  }

  function HeadOf(ph: Phase): Heading<Node> {
    if ph.Counting? then FirstHead else FinalHead
  }

  /** The items that the innermost container of `ctx` has in the finished tree. */
  function FinalItems(ctx: Ctx, whole: Json): seq<Json>
    requires !ctx.Root?
  {
    match Hole(ctx.outer, whole)
    case Some(JArray(items)) => items
    case Some(JObject(_, items)) => items
    case _ => []
  }

  function FinalNames(ctx: Ctx, whole: Json): seq<bytes>
    requires !ctx.Root?
  {
    match Hole(ctx.outer, whole)
    case Some(JObject(names, _)) => names
    case _ => []
  }

  function Natural(n: int): nat {
    if n < 0 then 0 else n
  }

  /** The node of an open array.  While blocks are filled the block has its final size and the
      references beyond the finished items are blank; while releasing, only `length` shrinks. */
  function ArrayFrame(ph: Phase, ctx: Ctx): Node
    requires ctx.InArray?
  {
    var n := NewNode(KArray, Owner(ctx.outer)).(length := |ctx.items|);
    var base := Count(ctx.outer) + 1;
    match ph
    case Counting => n
    case Filling(whole) =>
      var full := FinalItems(ctx, whole);
      if |full| == 0 then n
      else n.(block := Items(Refs(ctx.items, base) + Blank(Natural(|full| - |ctx.items|))))
    case Releasing(whole) =>
      var full := FinalItems(ctx, whole);
      if |full| == 0 then n else n.(block := Items(Refs(full, base)))
  }

  /** The node of an open object; `pend` are the bytes of a name that is being read. */
  function ObjectFrame(ph: Phase, ctx: Ctx, pend: bytes): Node
    requires ctx.InObject?
  {
    var n := NewNode(KObject, Owner(ctx.outer)).(length := |ctx.items|);
    var base := Count(ctx.outer) + 1;
    match ph
    case Counting => n.(nameBytes := NameBytes(ctx.names))
    case Filling(whole) =>
      var full, names := FinalItems(ctx, whole), FinalNames(ctx, whole);
      if |full| == 0 then n
      else n.(
        block := Entries(
          Slots(ctx.names, ctx.items, base) + BlankEntries(Natural(|names| - |ctx.names|)),
          NameArea(ctx.names) + Cells(pend) + Blank(Natural(NameBytes(names) - NameBytes(ctx.names) - |pend|))),
        nextName := NameBytes(ctx.names))
    case Releasing(whole) =>
      var full, names := FinalItems(ctx, whole), FinalNames(ctx, whole);
      if |full| == 0 then n
      else n.(block := Entries(Slots(names, full, base), NameArea(names)), nextName := NameBytes(names))
  }

  function Frame(ph: Phase, ctx: Ctx): Node {
    match ctx
    case Root => NewNode(KNull, None)
    case InArray(_, _) => ArrayFrame(ph, ctx)
    case InObject(_, _, _) => ObjectFrame(ph, ctx, [])
  }

  function StyleOf(ph: Phase): Style<Node> {
    Style(HeadOf(ph), ctx => Frame(ph, ctx))
  }

  /** The context is on the way through the tree that the phase works on. */
  predicate Placed(ph: Phase, ctx: Ctx) {
    ph.Counting? || OnTrack(ctx, ph.whole)
  }

  // ----- a container that holds all its items -----

  lemma FullArray(ph: Phase, ctx: Ctx)
    requires ctx.InArray? && !ph.Releasing?
    requires ph.Filling? ==> Hole(ctx.outer, ph.whole) == Some(JArray(ctx.items))
    ensures ArrayFrame(ph, ctx) == HeadOf(ph)(JArray(ctx.items), Owner(ctx.outer), Count(ctx.outer))
  {
    if ph.Filling? {
      assert Refs(ctx.items, Count(ctx.outer) + 1) + Blank(0) == Refs(ctx.items, Count(ctx.outer) + 1);
    }
  }

  lemma FullObject(ph: Phase, ctx: Ctx)
    requires ctx.InObject? && !ph.Releasing? && |ctx.names| == |ctx.items|
    requires ph.Filling? ==> Hole(ctx.outer, ph.whole) == Some(JObject(ctx.names, ctx.items))
    ensures ObjectFrame(ph, ctx, []) == HeadOf(ph)(JObject(ctx.names, ctx.items), Owner(ctx.outer), Count(ctx.outer))
  {
    if ph.Filling? {
      var slots := Slots(ctx.names, ctx.items, Count(ctx.outer) + 1);
      assert slots + BlankEntries(0) == slots;
      assert NameArea(ctx.names) + Cells([]) + Blank(0) == NameArea(ctx.names);
    }
  }

  // ----- linking a finished value into its container -----

  /** The container node after the value at index `child` has been linked and counted. */
  function Linked(n: Node, child: nat, filling: bool): Node
    requires CanLink(n, filling)
  {
    var m := n.(length := n.length + 1);
    if !filling then m
    else if n.block.Items? then m.(block := Items(n.block.refs[n.length := Some(child)]))
    else m.(block := n.block.(slots := n.block.slots[n.length := n.block.slots[n.length].(value := Some(child))]))
  }

  /** The container's block has a cell for one more value. */
  predicate CanLink(n: Node, filling: bool) {
    filling ==>
      || (n.kind.KArray? && n.block.Items? && n.length < |n.block.refs|)
      || (n.kind.KObject? && n.block.Entries? && n.length < |n.block.slots|)
  }

  lemma {:induction false} FillRef(items: seq<Json>, v: Json, base: nat, n: nat, child: nat, refs: seq<Option<nat>>)
    requires n > 0 && child == base + SizeAll(items) && refs == Refs(items, base) + Blank(n)
    ensures refs[|items| := Some(child)] == Refs(items + [v], base) + Blank(n - 1)
  {
    AppendRef(items, v, base);
  }

  lemma {:induction false} ArrayFrames(ph: Phase, ctx: Ctx, v: Json, ctx': Ctx, base: nat, n: nat)
    requires ctx.InArray? && ph.Filling? && Placed(ph, ctx) && Hole(ctx, ph.whole) == Some(v) && ctx' == Grow(ctx, v)
    requires base == Count(ctx.outer) + 1 && n == |FinalItems(ctx, ph.whole)| - |ctx.items|
    ensures n > 0 && Placed(ph, ctx') && Count(ctx) == base + SizeAll(ctx.items)
    ensures ArrayFrame(ph, ctx) == NewNode(KArray, Owner(ctx.outer)).(
              length := |ctx.items|, block := Items(Refs(ctx.items, base) + Blank(n)))
    ensures ArrayFrame(ph, ctx') == NewNode(KArray, Owner(ctx.outer)).(
              length := |ctx.items| + 1, block := Items(Refs(ctx.items + [v], base) + Blank(n - 1)))
  {
    var full := FinalItems(ctx, ph.whole);
    assert full[..|ctx.items| + 1] == ctx'.items;
    assert FinalItems(ctx', ph.whole) == full;
  }

  lemma {:induction false} LinkArray(ph: Phase, ctx: Ctx, v: Json, ctx': Ctx)
    requires ctx.InArray? && Placed(ph, ctx) && !ph.Releasing?
    requires ph.Filling? ==> Hole(ctx, ph.whole) == Some(v)
    requires ctx' == Grow(ctx, v)
    ensures Placed(ph, ctx')
    ensures CanLink(ArrayFrame(ph, ctx), ph.Filling?)
    ensures Linked(ArrayFrame(ph, ctx), Count(ctx), ph.Filling?) == ArrayFrame(ph, ctx')
  {
    if ph.Filling? {
      var base, n := Count(ctx.outer) + 1, |FinalItems(ctx, ph.whole)| - |ctx.items|;
      ArrayFrames(ph, ctx, v, ctx', base, n);
      FillRef(ctx.items, v, base, n, Count(ctx), Refs(ctx.items, base) + Blank(n));
    }
  }

  lemma {:induction false} FillEntry(
    names: seq<bytes>, items: seq<Json>, v: Json, base: nat, n: nat, child: nat, slots: seq<Entry>)
    requires |names| == |items| + 1 && child == base + SizeAll(items)
             && slots == Slots(names, items, base) + BlankEntries(n)
    ensures slots[|items| := slots[|items|].(value := Some(child))] == Slots(names, items + [v], base) + BlankEntries(n)
  {
    FillSlot(names, items, v, base);
  }

  lemma {:induction false} ObjectFrames(ph: Phase, ctx: Ctx, v: Json, ctx': Ctx, base: nat, n: nat, rest: nat)
    requires ctx.InObject? && |ctx.names| == |ctx.items| + 1 && ph.Filling? && Placed(ph, ctx)
    requires Hole(ctx, ph.whole) == Some(v) && ctx' == Grow(ctx, v)
    requires base == Count(ctx.outer) + 1 && n == Natural(|FinalNames(ctx, ph.whole)| - |ctx.names|)
    requires rest == Natural(NameBytes(FinalNames(ctx, ph.whole)) - NameBytes(ctx.names))
    ensures Placed(ph, ctx') && Count(ctx) == base + SizeAll(ctx.items)
    ensures ObjectFrame(ph, ctx, []) == NewNode(KObject, Owner(ctx.outer)).(
              length := |ctx.items|,
              block := Entries(Slots(ctx.names, ctx.items, base) + BlankEntries(n),
                  NameArea(ctx.names) + Cells([]) + Blank(rest)),
              nextName := NameBytes(ctx.names))
    ensures ObjectFrame(ph, ctx', []) == NewNode(KObject, Owner(ctx.outer)).(
              length := |ctx.items| + 1,
              block := Entries(Slots(ctx.names, ctx.items + [v], base) + BlankEntries(n),
                  NameArea(ctx.names) + Cells([]) + Blank(rest)),
              nextName := NameBytes(ctx.names))
  {
    var full := FinalItems(ctx, ph.whole);
    assert full[..|ctx.items| + 1] == ctx'.items;
    assert FinalItems(ctx', ph.whole) == full && FinalNames(ctx', ph.whole) == FinalNames(ctx, ph.whole);
  }

  lemma {:induction false} LinkObject(ph: Phase, ctx: Ctx, v: Json, ctx': Ctx)
    requires ctx.InObject? && |ctx.names| == |ctx.items| + 1 && Placed(ph, ctx) && !ph.Releasing?
    requires ph.Filling? ==> Hole(ctx, ph.whole) == Some(v)
    requires ctx' == Grow(ctx, v)
    ensures Placed(ph, ctx')
    ensures CanLink(ObjectFrame(ph, ctx, []), ph.Filling?)
    ensures Linked(ObjectFrame(ph, ctx, []), Count(ctx), ph.Filling?) == ObjectFrame(ph, ctx', [])
  {
    if ph.Filling? {
      var base, n := Count(ctx.outer) + 1, Natural(|FinalNames(ctx, ph.whole)| - |ctx.names|);
      var rest := Natural(NameBytes(FinalNames(ctx, ph.whole)) - NameBytes(ctx.names));
      ObjectFrames(ph, ctx, v, ctx', base, n, rest);
      FillEntry(ctx.names, ctx.items, v, base, n, Count(ctx), Slots(ctx.names, ctx.items, base) + BlankEntries(n));
    }
  }
}
