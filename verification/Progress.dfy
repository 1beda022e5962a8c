/** What the parser is in the middle of, and what the remaining text makes of it. */
module Progress {
  import opened Bytes
  import opened Unicode
  import opened Grammar
  import opened Preorder
  import opened Layout
  import opened Context
  import opened Arena
  import opened Styles

  datatype Mode =
    | Seek(comma: bool, colon: bool)                 // a value, or its separator, comes next
    | Body(comma: bool)                              // inside an object, between members
    | Reading(key: bool, acc: bytes, escaped: bool)  // inside a string or a name
    | Digits(start: nat)                             // inside a number
    | Finished(v: Json)                              // a value has just ended
    | Done(v: Json)                                  // the root value has ended

  datatype Remark = NoRemark | InLine | InBlock

  /** Which modes a context admits. */
  predicate Fits(ctx: Ctx, mode: Mode) {
    match mode
    case Seek(comma, colon) => Pending(ctx) && (comma ==> ctx.InArray?) && (colon ==> ctx.InObject?)
    case Body(_) => ctx.InObject? && |ctx.names| == |ctx.items| && Pending(ctx.outer)
    case Reading(key, _, _) =>
      if key then ctx.InObject? && |ctx.names| == |ctx.items| && Pending(ctx.outer) else Pending(ctx)
    case Digits(_) => Pending(ctx)
    case Finished(_) => Pending(ctx)
    case Done(_) => ctx.Root?
  }

  /** The node the `top` pointer designates. */
  function TopOf(ctx: Ctx, mode: Mode): Option<nat> {
    if mode.Seek? || mode.Body? || (mode.Reading? && mode.key) then Owner(ctx)
    else Some(Count(ctx))
  }

  predicate NumberAt(d: Doc, i: nat) {
    i < |d.text| && (IsDigit(d.text[i]) || d.text[i] == MINUS)
  }

  /** The tree that the text from position `i` completes the present state to, if any. */
  function Resume(d: Doc, ctx: Ctx, mode: Mode, i: nat): Option<Json>
    requires i <= |d.text| && Fits(ctx, mode)
    requires mode.Digits? ==> NumberAt(d, mode.start)
  {
    match mode
    case Seek(comma, colon) =>
      (match ctx
       case Root => PlugResult(d, ctx, Value(d, i))
       case InArray(items, outer) => CloseArray(d, outer, Elements(d, i, items, comma))
       case InObject(names, items, outer) =>
         if colon then CloseObject(d, outer, MemberValue(d, i, names, items))
         else PlugResult(d, ctx, Value(d, i)))
    case Body(comma) => CloseObject(d, ctx.outer, Members(d, i, ctx.names, ctx.items, comma))
    case Reading(key, acc, escaped) =>
      var r := Chars(d, i, acc, escaped);
      if r.Err? then None
      else if key then CloseObject(d, ctx.outer, MemberValue(d, r.next, ctx.names + [r.value], ctx.items))
      else Plug(d, ctx, JString(r.value), r.next)
    case Digits(start) => PlugResult(d, ctx, Number(d, start))
    case Finished(v) => Plug(d, ctx, v, i)
    case Done(v) => if Trailing(d, i) then Some(v) else None
  }

  /** The same when position `i` may lie inside a comment. */
  function ResumeFrom(d: Doc, ctx: Ctx, mode: Mode, remark: Remark, i: nat): Option<Json>
    requires i <= |d.text| && Fits(ctx, mode)
    requires mode.Digits? ==> NumberAt(d, mode.start)
  {
    match remark
    case NoRemark => Resume(d, ctx, mode, i)
    case InLine => Resume(d, ctx, mode, LineEnd(d, i))
    case InBlock => if BlockEnd(d, i).None? then None else Resume(d, ctx, mode, BlockEnd(d, i).value)
  }

  /** The text from position `i` completes the present state to `goal`. */
  ghost predicate CompletesTo(d: Doc, ctx: Ctx, mode: Mode, remark: Remark, i: nat, goal: Option<Json>) {
    && i <= |d.text|
    && Fits(ctx, mode)
    && (mode.Digits? ==> NumberAt(d, mode.start))
    && ResumeFrom(d, ctx, mode, remark, i) == goal
  }

  // `Completes`, and `Stored` further down, are the predicates that the parser's invariant is made of.  Each
  // is its plain definition (`CompletesTo`, `StoredAs`) under a recursion of three mutually recursive layers
  // that changes nothing, so that the verifier takes it as an atom and does not unfold it; a proof that needs
  // the meaning calls the lemma that states it (`CompletesDef`, `StoredDef`).

  ghost predicate Completes(d: Doc, ctx: Ctx, mode: Mode, remark: Remark, i: nat, goal: Option<Json>) {
    CompletesAt(i + 3, d, ctx, mode, remark, i, goal)
  }

  ghost predicate CompletesAt(depth: nat, d: Doc, ctx: Ctx, mode: Mode, remark: Remark, i: nat, goal: Option<Json>)
    decreases depth, 2
  {
    CompletesBelow(depth, d, ctx, mode, remark, i, goal)
  }

  ghost predicate CompletesBelow(depth: nat, d: Doc, ctx: Ctx, mode: Mode, remark: Remark, i: nat, goal: Option<Json>)
    decreases depth, 1
  {
    CompletesCore(depth, d, ctx, mode, remark, i, goal)
  }

  ghost predicate CompletesCore(depth: nat, d: Doc, ctx: Ctx, mode: Mode, remark: Remark, i: nat, goal: Option<Json>)
    decreases depth, 0
  {
    if depth == 0 then CompletesTo(d, ctx, mode, remark, i, goal)
    else CompletesAt(depth - 1, d, ctx, mode, remark, i, goal)
  }

  lemma CompletesDef(d: Doc, ctx: Ctx, mode: Mode, remark: Remark, i: nat, goal: Option<Json>)
    ensures Completes(d, ctx, mode, remark, i, goal) <==> CompletesTo(d, ctx, mode, remark, i, goal)
  {
    CompletesAtDef(i + 3, d, ctx, mode, remark, i, goal);
  }

  lemma {:induction false} CompletesAtDef(depth: nat, d: Doc, ctx: Ctx, mode: Mode, remark: Remark, i: nat,
      goal: Option<Json>)
    ensures CompletesAt(depth, d, ctx, mode, remark, i, goal) <==> CompletesTo(d, ctx, mode, remark, i, goal)
    decreases depth
  {
    assert CompletesAt(depth, d, ctx, mode, remark, i, goal) == CompletesCore(depth, d, ctx, mode, remark, i, goal);
    if depth > 0 {
      CompletesAtDef(depth - 1, d, ctx, mode, remark, i, goal);
    }
  }

  // ----- the visited nodes -----

  /** The length of the string at the hole. */
  function FinalLength(ctx: Ctx, whole: Json): nat {
    match Hole(ctx, whole)
    case Some(JString(t)) => |t|
    case _ => 0
  }

  /** The node of a string whose first bytes have been read. */
  function StringNode(ph: Phase, ctx: Ctx, acc: bytes): Node {
    var n := NewNode(KString, Owner(ctx));
    if ph.Filling? then n.(block := Text(Cells(acc) + Blank(Natural(FinalLength(ctx, ph.whole) + 1 - |acc|)))) else n
  }

  /** A string or name read so far fits in the block it is written to, with its NUL. */
  ghost predicate HasRoom(ph: Phase, ctx: Ctx, key: bool, acc: bytes) {
    ph.Filling? ==>
      && OnTrack(ctx, ph.whole)
      && if key then
           && ctx.InObject? && |ctx.names| < |FinalNames(ctx, ph.whole)|
           && |FinalNames(ctx, ph.whole)| == |FinalItems(ctx, ph.whole)|
           && NameBytes(ctx.names) + |acc| < NameBytes(FinalNames(ctx, ph.whole))
         else
           Hole(ctx, ph.whole).Some? && Hole(ctx, ph.whole).value.JString? && |acc| <= FinalLength(ctx, ph.whole)
  }

  /** Where the `string` pointer of the second pass points, as an offset in the node's block. */
  function BaseOf(ph: Phase, ctx: Ctx, key: bool): nat {
    if ph.Filling? && key && ctx.InObject? then NameBytes(ctx.names) else 0
  }

  predicate IsNumberNode(n: Node, parent: Option<nat>) {
    || n == NewNode(KInteger, parent).(integer := n.integer)
    || n == NewNode(KDouble, parent)
  }

  /** What the visited nodes are in each mode. */
  ghost predicate Visited(ph: Phase, nodes: seq<Node>, ctx: Ctx, mode: Mode)
    requires Fits(ctx, mode)
  {
    match mode
    case Seek(_, _) => nodes == Open(StyleOf(ph), ctx)
    case Body(_) => nodes == Open(StyleOf(ph), ctx)
    case Reading(key, acc, _) =>
      HasRoom(ph, ctx, key, acc) &&
      if key then nodes == OpenAs(StyleOf(ph), ctx, ObjectFrame(ph, ctx, acc))
      else nodes == Open(StyleOf(ph), ctx) + [StringNode(ph, ctx, acc)]
    case Digits(_) =>
      && |nodes| == Count(ctx) + 1
      && nodes == Open(StyleOf(ph), ctx) + [nodes[Count(ctx)]]
      && IsNumberNode(nodes[Count(ctx)], Owner(ctx))
    case Finished(v) => nodes == Open(StyleOf(ph), ctx) + Lay(HeadOf(ph), v, Owner(ctx), Count(ctx))
    case Done(v) => nodes == Lay(HeadOf(ph), v, None, 0)
  }

  /** The arena and the pointers into it are as they should be when the state is `ctx` and `mode`. */
  ghost predicate StoredAs(ph: Phase, nodes: seq<Node>, alloc: nat, top: Option<nat>, base: nat, ctx: Ctx, mode: Mode) {
    && Fits(ctx, mode)
    && ArenaOk(ph, nodes, alloc, ctx, mode)
    && top == TopOf(ctx, mode)
    && (mode.Reading? ==> base == BaseOf(ph, ctx, mode.key))
  }

  ghost predicate Stored(ph: Phase, nodes: seq<Node>, alloc: nat, top: Option<nat>, base: nat, ctx: Ctx, mode: Mode) {
    StoredAt(alloc + 3, ph, nodes, alloc, top, base, ctx, mode)
  }

  ghost predicate StoredAt(
    depth: nat, ph: Phase, nodes: seq<Node>, alloc: nat, top: Option<nat>, base: nat, ctx: Ctx, mode: Mode)
    decreases depth, 2
  {
    StoredBelow(depth, ph, nodes, alloc, top, base, ctx, mode)
  }

  ghost predicate StoredBelow(
    depth: nat, ph: Phase, nodes: seq<Node>, alloc: nat, top: Option<nat>, base: nat, ctx: Ctx, mode: Mode)
    decreases depth, 1
  {
    StoredCore(depth, ph, nodes, alloc, top, base, ctx, mode)
  }

  ghost predicate StoredCore(
    depth: nat, ph: Phase, nodes: seq<Node>, alloc: nat, top: Option<nat>, base: nat, ctx: Ctx, mode: Mode)
    decreases depth, 0
  {
    if depth == 0 then StoredAs(ph, nodes, alloc, top, base, ctx, mode)
    else StoredAt(depth - 1, ph, nodes, alloc, top, base, ctx, mode)
  }

  lemma StoredDef(ph: Phase, nodes: seq<Node>, alloc: nat, top: Option<nat>, base: nat, ctx: Ctx, mode: Mode)
    ensures Stored(ph, nodes, alloc, top, base, ctx, mode) <==> StoredAs(ph, nodes, alloc, top, base, ctx, mode)
  {
    StoredAtDef(alloc + 3, ph, nodes, alloc, top, base, ctx, mode);
  }

  lemma {:induction false} StoredAtDef(
    depth: nat, ph: Phase, nodes: seq<Node>, alloc: nat, top: Option<nat>, base: nat, ctx: Ctx, mode: Mode)
    ensures StoredAt(depth, ph, nodes, alloc, top, base, ctx, mode) <==> StoredAs(ph, nodes, alloc, top, base, ctx,
        mode)
    decreases depth
  {
    assert StoredAt(depth, ph, nodes, alloc, top, base, ctx, mode) == StoredCore(depth, ph, nodes, alloc, top, base,
        ctx, mode);
    if depth > 0 {
      StoredAtDef(depth - 1, ph, nodes, alloc, top, base, ctx, mode);
    }
  }

  /** The whole arena: the visited nodes, and in the second pass the nodes still as the first
      pass left them. */
  ghost predicate ArenaOk(ph: Phase, nodes: seq<Node>, alloc: nat, ctx: Ctx, mode: Mode)
    requires Fits(ctx, mode)
  {
    && alloc <= |nodes|
    && !ph.Releasing?
    && Placed(ph, ctx)
    && Visited(ph, nodes[..alloc], ctx, mode)
    && if ph.Filling? then Unvisited(ph.whole, nodes, alloc) else alloc == |nodes|
  }

  ghost predicate Unvisited(whole: Json, nodes: seq<Node>, alloc: nat)
    requires alloc <= |nodes|
  {
    |nodes| == Size(whole) && nodes[alloc..] == Lay(FirstHead, whole, None, 0)[alloc..]
  }

  // ----- in a run that succeeds the state is on track -----

  lemma {:induction false} ResumeOnTrack(d: Doc, ctx: Ctx, mode: Mode, i: nat, whole: Json)
    requires i <= |d.text| && Fits(ctx, mode)
    requires mode.Digits? ==> NumberAt(d, mode.start)
    requires Resume(d, ctx, mode, i) == Some(whole)
    ensures OnTrack(ctx, whole)
    ensures mode.Finished? ==> Hole(ctx, whole) == Some(mode.v)
    ensures mode.Digits? ==> Hole(ctx, whole).Some?
    ensures mode.Reading? ==> HasRoom(Filling(whole), ctx, mode.key, mode.acc)
    ensures mode.Done? ==> whole == mode.v
  {
    match mode
    case Seek(comma, colon) =>
      match ctx {
       case Root =>
       case InArray(items, outer) =>
         ElementsExtend(d, i, items, comma);
         var r := Elements(d, i, items, comma);
         PlugOnTrack(d, outer, JArray(r.value), r.next, whole);
       case InObject(names, items, outer) =>
         if colon {
           MemberValueExtend(d, i, names, items);
           var r := MemberValue(d, i, names, items);
           PlugOnTrack(d, outer, JObject(r.value.0, r.value.1), r.next, whole);
         } else {
           PlugOnTrack(d, ctx, Value(d, i).value, Value(d, i).next, whole);
         }
      }
    case Body(comma) =>
      MembersExtend(d, i, ctx.names, ctx.items, comma);
      var r := Members(d, i, ctx.names, ctx.items, comma);
      PlugOnTrack(d, ctx.outer, JObject(r.value.0, r.value.1), r.next, whole);
    case Reading(key, acc, escaped) => ReadingOnTrack(d, ctx, key, acc, escaped, i, whole);
    case Digits(start) => PlugOnTrack(d, ctx, Number(d, start).value, Number(d, start).next, whole);
    case Finished(v) => PlugOnTrack(d, ctx, v, i, whole);
    case Done(v) =>
  }

  lemma {:induction false} CharsExtend(d: Doc, i: nat, acc: bytes, escaped: bool)
    requires i <= |d.text|
    requires Chars(d, i, acc, escaped).Ok?
    ensures acc <= Chars(d, i, acc, escaped).value
    decreases |d.text| - i
  {
    if escaped {
      if d.text[i] == 0x75 {
        var c := EscapedChar(d, i + 1);
        CharsExtend(d, c.next, acc + Encode(c.value), false);
      } else {
        CharsExtend(d, i + 1, acc + [Unescape(d.text[i])], false);
      }
    } else if d.text[i] == BACKSLASH {
      CharsExtend(d, i + 1, acc, true);
    } else if d.text[i] == QUOTE {
    } else {
      CharsExtend(d, i + 1, acc + [d.text[i]], false);
    }
  }

  lemma ReadingOnTrack(d: Doc, ctx: Ctx, key: bool, acc: bytes, escaped: bool, i: nat, whole: Json)
    requires i <= |d.text| && Fits(ctx, Reading(key, acc, escaped))
    requires Resume(d, ctx, Reading(key, acc, escaped), i) == Some(whole)
    ensures HasRoom(Filling(whole), ctx, key, acc)
  {
    CharsExtend(d, i, acc, escaped);
    var s := Chars(d, i, acc, escaped);
    if key {
      NameOnTrack(d, ctx, s.value, s.next, whole);
    } else {
      PlugOnTrack(d, ctx, JString(s.value), s.next, whole);
    }
  }

  lemma {:induction false} NameOnTrack(d: Doc, ctx: Ctx, name: bytes, i: nat, whole: Json)
    requires i <= |d.text| && Fits(ctx, Body(false))
    requires CloseObject(d, ctx.outer, MemberValue(d, i, ctx.names + [name], ctx.items)) == Some(whole)
    ensures OnTrack(ctx, whole) && OnTrack(InObject(ctx.names + [name], ctx.items, ctx.outer), whole)
    ensures |ctx.names| < |FinalNames(ctx, whole)| == |FinalItems(ctx, whole)|
    ensures NameBytes(ctx.names) + |name| < NameBytes(FinalNames(ctx, whole))
  {
    var names, items := ctx.names + [name], ctx.items;
    MemberValueExtend(d, i, names, items);
    var r := MemberValue(d, i, names, items);
    PlugOnTrack(d, ctx.outer, JObject(r.value.0, r.value.1), r.next, whole);
    NameRoom(ctx.names, name, r.value.0);
    assert ctx.names <= names;
  }

  // ----- where a layout of the whole tree holds the part at the hole -----

  lemma {:induction false} ChildOfHole<N>(
    head: Heading<N>, ctx: Ctx, whole: Json, v: Json, c: Json, part: seq<N>, mid: seq<N>, off: nat)
    requires !ctx.Root? && Hole(ctx, whole) == Some(v) && Hole(ctx.outer, whole) == Some(c)
    requires part == Lay(head, v, Owner(ctx), Count(ctx))
    requires mid == Lay(head, c, Owner(ctx.outer), Count(ctx.outer))
    requires Count(ctx) == Count(ctx.outer) + off
    ensures Within(part, mid, off)
  {
    assert c.items[..|ctx.items|] == ctx.items;
    ChildWithin(head, c, |ctx.items|, Owner(ctx.outer), Count(ctx.outer), Count(ctx), off, part, mid);
  }

  lemma {:induction false} PartAt<N>(
    head: Heading<N>, ctx: Ctx, whole: Json, v: Json, part: seq<N>, all: seq<N>, at: nat)
    requires OnTrack(ctx, whole) && Hole(ctx, whole) == Some(v) && at == Count(ctx)
    requires part == Lay(head, v, Owner(ctx), at)
    requires all == Lay(head, whole, None, 0)
    ensures Within(part, all, at)
    decreases ctx
  {
    if !ctx.Root? {
      var c, start := Hole(ctx.outer, whole).value, Count(ctx.outer);
      var mid := Lay(head, c, Owner(ctx.outer), start);
      var off := at - start;
      PartAt(head, ctx.outer, whole, c, mid, all, start);
      ChildOfHole(head, ctx, whole, v, c, part, mid, off);
      WithinWithin(part, mid, all, off, start, at);
    }
  }

  /** The next unvisited node is the one the first pass made for the part at the hole. */
  lemma {:induction false} NextNode(ctx: Ctx, whole: Json, v: Json, nodes: seq<Node>, at: nat)
    requires OnTrack(ctx, whole) && Hole(ctx, whole) == Some(v) && at == Count(ctx)
    requires at <= |nodes| && Unvisited(whole, nodes, at)
    ensures at < |nodes| && nodes[at] == FirstHead(v, Owner(ctx), at)
  {
    var part, skeleton := Lay(FirstHead, v, Owner(ctx), at), Lay(FirstHead, whole, None, 0);
    PartAt(FirstHead, ctx, whole, v, part, skeleton, at);
    assert part[0] == skeleton[at..at + |part|][0] == skeleton[at];
    assert skeleton[at] == skeleton[at..][0];
  }

  lemma VisitNext(whole: Json, nodes: seq<Node>, at: nat, n: Node, nodes': seq<Node>)
    requires at < |nodes| && Unvisited(whole, nodes, at) && nodes' == nodes[at := n]
    ensures Unvisited(whole, nodes', at + 1)
    ensures nodes'[..at + 1] == nodes[..at] + [n]
  {
    var skeleton := Lay(FirstHead, whole, None, 0);
    assert nodes'[at + 1..] == nodes[at..][1..];
    assert skeleton[at + 1..] == skeleton[at..][1..];
  }

  /** Writing to a visited node leaves the unvisited ones alone. */
  lemma UpdateVisited(whole: Json, nodes: seq<Node>, alloc: nat, k: nat, n: Node)
    requires k < alloc <= |nodes| && Unvisited(whole, nodes, alloc)
    ensures Unvisited(whole, nodes[k := n], alloc)
    ensures nodes[k := n][..alloc] == nodes[..alloc][k := n]
  {
    assert nodes[k := n][alloc..] == nodes[alloc..];
  }
}
