/** How each arena operation of the parser keeps the arena in step with the state. */
module Moves {
  import opened Bytes
  import opened Grammar
  import opened Preorder
  import opened Layout
  import opened Context
  import opened Arena
  import opened Styles
  import opened Progress
  import opened Sizes
  import opened Ledger
  import opened Writes

  /** A phase of the parser, for a text that completes to `goal`. */
  predicate PhaseOf(ph: Phase, goal: Option<Json>) {
    ph.Counting? || (ph.Filling? && goal == Some(ph.whole))
  }

  /** The state after a value has started inside `ctx`. */
  predicate StartsIn(ctx: Ctx, c: Ctx, m: Mode) {
    || (c == InArray([], ctx) && m == Seek(false, false))
    || (c == InObject([], [], ctx) && m == Body(false))
    || (c == ctx && m == Reading(false, [], false))
    || (c == ctx && m.Finished?)
  }

  /** In a run that succeeds, the value that starts is the part at the hole. */
  lemma {:induction false} StartingValue(d: Doc, ctx: Ctx, c: Ctx, m: Mode, pos: nat, whole: Json)
    requires Pending(ctx) && StartsIn(ctx, c, m) && Completes(d, c, m, NoRemark, pos, Some(whole))
    ensures OnTrack(ctx, whole) && OnTrack(c, whole) && Hole(ctx, whole).Some?
    ensures c.InArray? && c != ctx ==> Hole(ctx, whole).value.JArray?
    ensures c.InObject? && c != ctx ==> Hole(ctx, whole).value.JObject?
    ensures m.Reading? ==> Hole(ctx, whole).value.JString?
    ensures m.Finished? ==> Hole(ctx, whole).value == m.v
  {
    CompletesDef(d, c, m, NoRemark, pos, Some(whole));
    ResumeOnTrack(d, c, m, pos, whole);
  }

  /** new_value has a node to make or to visit; in the second pass it is the one that the first pass made for
      the value that starts. */
  lemma BeforePush(
    d: Doc, ph: Phase, nodes: seq<Node>, alloc: nat, top: Option<nat>, base: nat, ctx: Ctx,
    c: Ctx, m: Mode, pos: nat, goal: Option<Json>) returns (v: Json)
    requires PhaseOf(ph, goal) && StartsIn(ctx, c, m) && Completes(d, c, m, NoRemark, pos, goal)
    requires Stored(ph, nodes, alloc, top, base, ctx, Seek(false, false))
    ensures alloc <= |nodes| && (ph.Counting? ==> alloc == |nodes|)
    ensures ph.Filling? ==> alloc < |nodes| == Size(ph.whole)
    ensures ph.Filling? ==> Hole(ctx, ph.whole) == Some(v) && nodes[alloc] == FirstHead(v, Owner(ctx), alloc)
  {
    CompletesDef(d, c, m, NoRemark, pos, goal);
    StoredDef(ph, nodes, alloc, top, base, ctx, Seek(false, false));
    v := JNull;
    if ph.Filling? {
      StartingValue(d, ctx, c, m, pos, ph.whole);
      v := Hole(ctx, ph.whole).value;
      NextNode(ctx, ph.whole, v, nodes, alloc);
    }
  }

  /** What new_value is about to request. */
  lemma {:induction false} NextDue(
    o: Options, d: Doc, first: bool, ph: Phase, nodes: seq<Node>, alloc: nat, top: Option<nat>, base: nat, ctx: Ctx,
    c: Ctx, m: Mode, pos: nat, goal: Option<Json>)
    requires PhaseOf(ph, goal) && StartsIn(ctx, c, m) && Completes(d, c, m, NoRemark, pos, goal)
    requires Stored(ph, nodes, alloc, top, base, ctx, Seek(false, false))
    requires if first then ph.Counting? else ph.Filling?
    ensures first ==> alloc == |nodes| && Due(o, goal, first, alloc, Some(NodeAsk(o)))
    ensures !first ==> alloc < |nodes| == Size(ph.whole) && Due(o, goal, first, alloc, Charge(o, nodes[alloc]))
  {
    var v := BeforePush(d, ph, nodes, alloc, top, base, ctx, c, m, pos, goal);
    CompletesDef(d, c, m, NoRemark, pos, goal);
    StoredDef(ph, nodes, alloc, top, base, ctx, Seek(false, false));
    if goal.Some? {
      StartingValue(d, ctx, c, m, pos, goal.value);
      BlockEntry(o, ctx, goal.value, Hole(ctx, goal.value).value, alloc);
      NodeEntry(o, goal.value, alloc);
    }
  }

  /** The same for a number in the first pass. */
  lemma {:induction false} NumberDue(
    o: Options, d: Doc, ph: Phase, nodes: seq<Node>, alloc: nat, top: Option<nat>, base: nat, ctx: Ctx, start: nat,
    pos: nat, goal: Option<Json>)
    requires ph.Counting? && Completes(d, ctx, Digits(start), NoRemark, pos, goal)
    requires Stored(ph, nodes, alloc, top, base, ctx, Seek(false, false))
    ensures alloc == |nodes| && Due(o, goal, true, alloc, Some(NodeAsk(o)))
  {
    CompletesDef(d, ctx, Digits(start), NoRemark, pos, goal);
    StoredDef(ph, nodes, alloc, top, base, ctx, Seek(false, false));
    if goal.Some? {
      ResumeOnTrack(d, ctx, Digits(start), pos, goal.value);
      BlockEntry(o, ctx, goal.value, Hole(ctx, goal.value).value, alloc);
      NodeEntry(o, goal.value, alloc);
    }
  }

  /** The node that new_value leaves, `kind` being the one asked for in the first pass. */
  function Made(ph: Phase, nodes: seq<Node>, alloc: nat, top: Option<nat>, kind: Kind): Node {
    if ph.Filling? && alloc < |nodes| then Prepared(nodes[alloc]) else NewNode(kind, top)
  }

  function WithMade(ph: Phase, nodes: seq<Node>, alloc: nat, n: Node): seq<Node> {
    if ph.Filling? && alloc < |nodes| then nodes[alloc := n] else nodes + [n]
  }

  lemma RewriteMade(ph: Phase, nodes: seq<Node>, alloc: nat, n: Node, n': Node)
    requires ph.Filling? || alloc == |nodes|
    requires alloc < |WithMade(ph, nodes, alloc, n)|
    ensures WithMade(ph, nodes, alloc, n)[alloc := n'] == WithMade(ph, nodes, alloc, n')
  {
  }

  lemma {:induction false} PushRaw(ph: Phase, nodes: seq<Node>, alloc: nat, ctx: Ctx, n: Node, nodes': seq<Node>,
      alloc': nat)
    requires Pending(ctx) && ArenaOk(ph, nodes, alloc, ctx, Seek(false, false))
    requires ph.Filling? ==> alloc < |nodes|
    requires nodes' == WithMade(ph, nodes, alloc, n)
    requires alloc' == alloc + 1
    ensures alloc < |nodes'| && nodes'[..alloc'] == Open(StyleOf(ph), ctx) + [n]
    ensures if ph.Filling? then Unvisited(ph.whole, nodes', alloc') else alloc' == |nodes'|
  {
    if ph.Filling? {
      VisitNext(ph.whole, nodes, alloc, n, nodes');
    } else {
      assert nodes[..alloc] == nodes;
      assert nodes'[..alloc'] == nodes';
    }
  }

  /** The node of a new container is the one an open container with nothing in it has. */
  lemma {:induction false} MadeContainer(
    d: Doc, ph: Phase, nodes: seq<Node>, alloc: nat, ctx: Ctx,
    c: Ctx, m: Mode, pos: nat, goal: Option<Json>, kind: Kind, n: Node)
    requires PhaseOf(ph, goal) && StartsIn(ctx, c, m) && Completes(d, c, m, NoRemark, pos, goal)
    requires Pending(ctx) && ArenaOk(ph, nodes, alloc, ctx, Seek(false, false))
    requires (kind == KArray && c.InArray? && m.Seek?) || (kind == KObject && c.InObject? && m.Body?)
    requires n == Made(ph, nodes, alloc, Owner(ctx), kind)
    ensures n == Frame(ph, c) && Placed(ph, c)
  {
    var v := JNull;
    if ph.Filling? {
      StartingValue(d, ctx, c, m, pos, ph.whole);
      v := Hole(ctx, ph.whole).value;
      NextNode(ctx, ph.whole, v, nodes, alloc);
    }
    NewContainer(ph, ctx, c, kind, v, n);
  }

  lemma {:induction false} OpenFits(ctx: Ctx, c: Ctx, m: Mode)
    requires Pending(ctx) && StartsIn(ctx, c, m) && (m.Seek? || m.Body?)
    ensures Fits(c, m) && TopOf(c, m) == Some(Count(ctx))
  {
  }

  lemma {:induction false} OpenRaw(
    d: Doc, ph: Phase, nodes: seq<Node>, alloc: nat, ctx: Ctx,
    c: Ctx, m: Mode, pos: nat, goal: Option<Json>, kind: Kind, n: Node, nodes': seq<Node>, alloc': nat)
    requires PhaseOf(ph, goal) && StartsIn(ctx, c, m) && Completes(d, c, m, NoRemark, pos, goal)
    requires Pending(ctx) && ArenaOk(ph, nodes, alloc, ctx, Seek(false, false)) && (ph.Filling? ==> alloc < |nodes|)
    requires (kind == KArray && c.InArray? && m.Seek?) || (kind == KObject && c.InObject? && m.Body?)
    requires n == Made(ph, nodes, alloc, Owner(ctx), kind) && nodes' == WithMade(ph, nodes, alloc, n)
    requires alloc' == alloc + 1
    ensures Fits(c, m) && ArenaOk(ph, nodes', alloc', c, m)
  {
    MadeContainer(d, ph, nodes, alloc, ctx, c, m, pos, goal, kind, n);
    PushRaw(ph, nodes, alloc, ctx, n, nodes', alloc');
    PushContainer(ph, ctx, n, c, nodes'[..alloc']);
    OpenFits(ctx, c, m);
    OpenArena(ph, nodes', alloc', c, m);
  }

  /** A new container. */
  lemma OpenStored(
    d: Doc, ph: Phase, nodes: seq<Node>, alloc: nat, top: Option<nat>, base: nat, ctx: Ctx,
    c: Ctx, m: Mode, pos: nat, goal: Option<Json>, kind: Kind, n: Node,
    nodes': seq<Node>, alloc': nat, top': Option<nat>)
    requires PhaseOf(ph, goal) && StartsIn(ctx, c, m) && Completes(d, c, m, NoRemark, pos, goal)
    requires Stored(ph, nodes, alloc, top, base, ctx, Seek(false, false))
    requires (kind == KArray && c.InArray? && m.Seek?) || (kind == KObject && c.InObject? && m.Body?)
    requires n == Made(ph, nodes, alloc, top, kind) && nodes' == WithMade(ph, nodes, alloc, n)
    requires alloc' == alloc + 1 && top' == Some(alloc)
    ensures Stored(ph, nodes', alloc', top', base, c, m)
  {
    var part := BeforePush(d, ph, nodes, alloc, top, base, ctx, c, m, pos, goal);
    StoredDef(ph, nodes, alloc, top, base, ctx, Seek(false, false));
    OpenRaw(d, ph, nodes, alloc, ctx, c, m, pos, goal, kind, n, nodes', alloc');
    OpenFits(ctx, c, m);
    OpenCount(ph, nodes, alloc, ctx);
    StoredDef(ph, nodes', alloc', top', base, c, m);
  }

  lemma {:induction false} OpenCount(ph: Phase, nodes: seq<Node>, alloc: nat, ctx: Ctx)
    requires Pending(ctx) && ArenaOk(ph, nodes, alloc, ctx, Seek(false, false))
    ensures alloc == Count(ctx)
  {
  }

  /** The node of a value that is complete at once. */
  function LeafOf(n: Node, v: Json): Node {
    if v == JBool(true) then n.(flag := true) else n
  }

  /** The kind asked for in the first pass fits the value. */
  predicate LeafKind(kind: Kind, v: Json) {
    (kind == KBoolean && v.JBool?) || (kind == KNull && v.JNull?)
  }

  /** The node of a value that is complete at once. */
  lemma {:induction false} MadeLeaf(
    d: Doc, ph: Phase, nodes: seq<Node>, alloc: nat, ctx: Ctx, v: Json, pos: nat, goal: Option<Json>, kind: Kind,
        n: Node)
    requires PhaseOf(ph, goal) && Completes(d, ctx, Finished(v), NoRemark, pos, goal)
    requires !v.JArray? && !v.JObject? && !v.JString? && (ph.Counting? ==> LeafKind(kind, v))
    requires Pending(ctx) && ArenaOk(ph, nodes, alloc, ctx, Seek(false, false))
    requires n == LeafOf(Made(ph, nodes, alloc, Owner(ctx), kind), v)
    ensures n == HeadOf(ph)(v, Owner(ctx), Count(ctx)) && Placed(ph, ctx)
  {
    if ph.Filling? {
      StartingValue(d, ctx, ctx, Finished(v), pos, ph.whole);
      NextNode(ctx, ph.whole, v, nodes, alloc);
      PreparedLeaf(v, Owner(ctx), alloc);
    }
  }

  lemma {:induction false} LeafRaw(
    d: Doc, ph: Phase, nodes: seq<Node>, alloc: nat, ctx: Ctx,
    v: Json, pos: nat, goal: Option<Json>, kind: Kind, n: Node, nodes': seq<Node>, alloc': nat)
    requires PhaseOf(ph, goal) && Completes(d, ctx, Finished(v), NoRemark, pos, goal)
    requires !v.JArray? && !v.JObject? && !v.JString? && (ph.Counting? ==> LeafKind(kind, v))
    requires Pending(ctx) && ArenaOk(ph, nodes, alloc, ctx, Seek(false, false)) && (ph.Filling? ==> alloc < |nodes|)
    requires n == LeafOf(Made(ph, nodes, alloc, Owner(ctx), kind), v) && nodes' == WithMade(ph, nodes, alloc, n)
    requires alloc' == alloc + 1
    ensures ArenaOk(ph, nodes', alloc', ctx, Finished(v))
  {
    MadeLeaf(d, ph, nodes, alloc, ctx, v, pos, goal, kind, n);
    PushRaw(ph, nodes, alloc, ctx, n, nodes', alloc');
    PushLeaf(ph, ctx, n, v, nodes'[..alloc']);
  }

  lemma LeafStored(
    d: Doc, ph: Phase, nodes: seq<Node>, alloc: nat, top: Option<nat>, base: nat, ctx: Ctx,
    v: Json, pos: nat, goal: Option<Json>, kind: Kind, n: Node,
    nodes': seq<Node>, alloc': nat, top': Option<nat>)
    requires PhaseOf(ph, goal) && Completes(d, ctx, Finished(v), NoRemark, pos, goal)
    requires !v.JArray? && !v.JObject? && !v.JString?
    requires Stored(ph, nodes, alloc, top, base, ctx, Seek(false, false))
    requires ph.Counting? ==> LeafKind(kind, v)
    requires n == LeafOf(Made(ph, nodes, alloc, top, kind), v) && nodes' == WithMade(ph, nodes, alloc, n)
    requires alloc' == alloc + 1 && top' == Some(alloc)
    ensures Stored(ph, nodes', alloc', top', base, ctx, Finished(v))
  {
    var part := BeforePush(d, ph, nodes, alloc, top, base, ctx, ctx, Finished(v), pos, goal);
    StoredDef(ph, nodes, alloc, top, base, ctx, Seek(false, false));
    LeafRaw(d, ph, nodes, alloc, ctx, v, pos, goal, kind, n, nodes', alloc');
    OpenCount(ph, nodes, alloc, ctx);
    StoredDef(ph, nodes', alloc', top', base, ctx, Finished(v));
  }

  lemma {:induction false} MadeString(
    d: Doc, ph: Phase, nodes: seq<Node>, alloc: nat, ctx: Ctx, pos: nat, goal: Option<Json>, n: Node)
    requires PhaseOf(ph, goal) && Completes(d, ctx, Reading(false, [], false), NoRemark, pos, goal)
    requires Pending(ctx) && ArenaOk(ph, nodes, alloc, ctx, Seek(false, false))
    requires n == Made(ph, nodes, alloc, Owner(ctx), KString)
    ensures n == StringNode(ph, ctx, []) && HasRoom(ph, ctx, false, []) && Placed(ph, ctx)
  {
    if ph.Filling? {
      StartingValue(d, ctx, ctx, Reading(false, [], false), pos, ph.whole);
      var v := Hole(ctx, ph.whole).value;
      NextNode(ctx, ph.whole, v, nodes, alloc);
      PreparedString(ctx, ph.whole, v.s, alloc);
    }
  }

  /** The node of a string value that starts here. */
  lemma StringStored(
    d: Doc, ph: Phase, nodes: seq<Node>, alloc: nat, top: Option<nat>, base: nat, ctx: Ctx,
    pos: nat, goal: Option<Json>, n: Node, nodes': seq<Node>, alloc': nat, top': Option<nat>)
    requires PhaseOf(ph, goal) && Completes(d, ctx, Reading(false, [], false), NoRemark, pos, goal)
    requires Stored(ph, nodes, alloc, top, base, ctx, Seek(false, false))
    requires n == Made(ph, nodes, alloc, top, KString) && nodes' == WithMade(ph, nodes, alloc, n)
    requires alloc' == alloc + 1 && top' == Some(alloc)
    ensures Stored(ph, nodes', alloc', top', 0, ctx, Reading(false, [], false))
  {
    var part := BeforePush(d, ph, nodes, alloc, top, base, ctx, ctx, Reading(false, [], false), pos, goal);
    StoredDef(ph, nodes, alloc, top, base, ctx, Seek(false, false));
    MadeString(d, ph, nodes, alloc, ctx, pos, goal, n);
    PushRaw(ph, nodes, alloc, ctx, n, nodes', alloc');
    StoredDef(ph, nodes', alloc', top', 0, ctx, Reading(false, [], false));
  }

  // ----- reading a string or a name -----

  /** The name of a member starts: its bytes go where the `object_mem` pointer points. */
  lemma NameStored(
    d: Doc, ph: Phase, nodes: seq<Node>, alloc: nat, top: Option<nat>, base: nat, ctx: Ctx,
    pos: nat, goal: Option<Json>)
    requires PhaseOf(ph, goal) && Completes(d, ctx, Reading(true, [], false), NoRemark, pos, goal)
    requires Stored(ph, nodes, alloc, top, base, ctx, Body(false))
    ensures top.Some? && top.value < |nodes|
    ensures Stored(ph, nodes, alloc, top, nodes[top.value].nextName, ctx, Reading(true, [], false))
  {
    CompletesDef(d, ctx, Reading(true, [], false), NoRemark, pos, goal);
    StoredDef(ph, nodes, alloc, top, base, ctx, Body(false));
    if ph.Filling? {
      ReadingOnTrack(d, ctx, true, [], false, pos, ph.whole);
    }
    OpenIsOpenAs(StyleOf(ph), ctx);
    UpdateOwner(StyleOf(ph), ctx, Frame(ph, ctx), Frame(ph, ctx), nodes[..alloc]);
    StoredDef(ph, nodes, alloc, top, nodes[top.value].nextName, ctx, Reading(true, [], false));
  }

  /** An escape sign changes nothing in the arena. */
  lemma EscapeStored(
    ph: Phase, nodes: seq<Node>, alloc: nat, top: Option<nat>, base: nat, ctx: Ctx, key: bool, acc: bytes,
    escaped: bool, escaped': bool)
    requires Stored(ph, nodes, alloc, top, base, ctx, Reading(key, acc, escaped))
    ensures Stored(ph, nodes, alloc, top, base, ctx, Reading(key, acc, escaped'))
  {
    StoredDef(ph, nodes, alloc, top, base, ctx, Reading(key, acc, escaped));
    StoredDef(ph, nodes, alloc, top, base, ctx, Reading(key, acc, escaped'));
  }

  /** The room for the bytes that the rest of the text promises. */
  lemma RoomFor(
    d: Doc, ph: Phase, ctx: Ctx, key: bool, acc: bytes, full: bytes, escaped: bool, pos: nat, goal: Option<Json>)
    requires PhaseOf(ph, goal) && Completes(d, ctx, Reading(key, full, escaped), NoRemark, pos, goal)
    requires |acc| <= |full|
    ensures HasRoom(ph, ctx, key, acc)
  {
    CompletesDef(d, ctx, Reading(key, full, escaped), NoRemark, pos, goal);
    if ph.Filling? {
      ReadingOnTrack(d, ctx, key, full, escaped, pos, ph.whole);
    }
  }

  /** First pass: bytes are only counted. */
  lemma CountStored(
    ph: Phase, nodes: seq<Node>, alloc: nat, top: Option<nat>, base: nat, ctx: Ctx, key: bool, acc: bytes, more: bytes)
    requires ph.Counting? && Stored(ph, nodes, alloc, top, base, ctx, Reading(key, acc, false))
    ensures Stored(ph, nodes, alloc, top, base, ctx, Reading(key, acc + more, false))
  {
    StoredDef(ph, nodes, alloc, top, base, ctx, Reading(key, acc, false));
    assert key ==> ObjectFrame(ph, ctx, acc + more) == ObjectFrame(ph, ctx, acc);
    assert !key ==> StringNode(ph, ctx, acc + more) == StringNode(ph, ctx, acc);
    StoredDef(ph, nodes, alloc, top, base, ctx, Reading(key, acc + more, false));
  }

  lemma PutNameArena(
    ph: Phase, nodes: seq<Node>, alloc: nat, ctx: Ctx, acc: bytes, b: byte, n: Node, n': Node, at: nat)
    requires ctx.InObject? && |ctx.names| == |ctx.items| && Pending(ctx.outer)
    requires ph.Filling? && HasRoom(ph, ctx, true, acc + [b])
    requires ArenaOk(ph, nodes, alloc, ctx, Reading(true, acc, false))
    requires n == ObjectFrame(ph, ctx, acc) && n' == ObjectFrame(ph, ctx, acc + [b]) && at == Count(ctx.outer)
    ensures at < |nodes| && nodes[at] == n
    ensures ArenaOk(ph, nodes[at := n'], alloc, ctx, Reading(true, acc + [b], false))
  {
    UpdateOwner(StyleOf(ph), ctx, n, n', nodes[..alloc]);
    UpdateVisited(ph.whole, nodes, alloc, at, n');
  }

  lemma PutNameStored(
    ph: Phase, nodes: seq<Node>, alloc: nat, top: Option<nat>, base: nat, ctx: Ctx, acc: bytes, b: byte, n: Node,
        at: nat)
    requires at == base + |acc|
    requires ph.Filling? && HasRoom(ph, ctx, true, acc + [b])
    requires Stored(ph, nodes, alloc, top, base, ctx, Reading(true, acc, false))
    requires n == ObjectFrame(ph, ctx, acc)
    ensures top.Some? && top.value < |nodes| && nodes[top.value] == n && CanPut(n, at)
    ensures Stored(ph, nodes[top.value := PutByte(n, at, b)], alloc, top, base, ctx, Reading(true, acc + [b], false))
  {
    StoredDef(ph, nodes, alloc, top, base, ctx, Reading(true, acc, false));
    PutInName(ph, ctx, acc, b);
    PutNameArena(ph, nodes, alloc, ctx, acc, b, n, PutByte(n, at, b), top.value);
    StoredDef(ph, nodes[top.value := PutByte(n, at, b)], alloc, top, base, ctx, Reading(true, acc + [b], false));
  }

  lemma PutStringStored(
    ph: Phase, nodes: seq<Node>, alloc: nat, top: Option<nat>, base: nat, ctx: Ctx, acc: bytes, b: byte, n: Node,
        at: nat)
    requires at == base + |acc|
    requires ph.Filling? && HasRoom(ph, ctx, false, acc + [b])
    requires Stored(ph, nodes, alloc, top, base, ctx, Reading(false, acc, false))
    requires n == StringNode(ph, ctx, acc)
    ensures top.Some? && top.value < |nodes| && nodes[top.value] == n && CanPut(n, at)
    ensures Stored(ph, nodes[top.value := PutByte(n, at, b)], alloc, top, base, ctx, Reading(false, acc + [b], false))
  {
    StoredDef(ph, nodes, alloc, top, base, ctx, Reading(false, acc, false));
    PutInString(ph, ctx, acc, b);
    UpdateVisited(ph.whole, nodes, alloc, top.value, PutByte(n, at, b));
    StoredDef(ph, nodes[top.value := PutByte(n, at, b)], alloc, top, base, ctx, Reading(false, acc + [b], false));
  }

  /** Second pass: the next byte lands inside the block, right after the previous ones. */
  lemma PutStored(
    ph: Phase, nodes: seq<Node>, alloc: nat, top: Option<nat>, base: nat, ctx: Ctx, key: bool, acc: bytes, b: byte,
        at: nat)
    requires at == base + |acc|
    requires ph.Filling? && HasRoom(ph, ctx, key, acc + [b])
    requires Stored(ph, nodes, alloc, top, base, ctx, Reading(key, acc, false))
    ensures top.Some? && top.value < |nodes| && CanPut(nodes[top.value], at)
    ensures Stored(ph, nodes[top.value := PutByte(nodes[top.value], at, b)], alloc, top, base, ctx,
                   Reading(key, acc + [b], false))
  {
    if key {
      PutNameStored(ph, nodes, alloc, top, base, ctx, acc, b, ObjectFrame(ph, ctx, acc), at);
    } else {
      PutStringStored(ph, nodes, alloc, top, base, ctx, acc, b, StringNode(ph, ctx, acc), at);
    }
  }

  /** The node of a string value after its closing quote. */
  function QuotedNode(ph: Phase, n: Node, at: nat, len: nat): Node
    requires ph.Filling? ==> CanPut(n, at)
  {
    (if ph.Filling? then PutByte(n, at, NUL) else n).(length := len)
  }

  lemma QuotedFrame(ph: Phase, ctx: Ctx, acc: bytes, n: Node) returns (n': Node)
    requires !ph.Releasing? && (ph.Filling? ==> Hole(ctx, ph.whole) == Some(JString(acc)))
    requires n == StringNode(ph, ctx, acc)
    ensures ph.Filling? ==> CanPut(n, |acc|)
    ensures n' == QuotedNode(ph, n, |acc|, |acc|)
    ensures Open(StyleOf(ph), ctx) + [n']
            == Open(StyleOf(ph), ctx) + Lay(HeadOf(ph), JString(acc), Owner(ctx), Count(ctx))
  {
    CloseStringNode(ph, ctx, acc, Count(ctx));
    n' := QuotedNode(ph, n, |acc|, |acc|);
    PushLeaf(ph, ctx, n', JString(acc), Open(StyleOf(ph), ctx) + [n']);
  }

  lemma {:induction false} QuoteRaw(ph: Phase, nodes: seq<Node>, alloc: nat, ctx: Ctx, acc: bytes, n: Node, n': Node,
      at: nat)
    requires n == StringNode(ph, ctx, acc) && at == Count(ctx) && Pending(ctx)
    requires ArenaOk(ph, nodes, alloc, ctx, Reading(false, acc, false))
    requires Open(StyleOf(ph), ctx) + [n'] == Open(StyleOf(ph), ctx) + Lay(HeadOf(ph), JString(acc), Owner(ctx), at)
    ensures at < |nodes| && nodes[at] == n
    ensures ArenaOk(ph, nodes[at := n'], alloc, ctx, Finished(JString(acc)))
  {
    assert nodes[..alloc][at] == n;
    UpdateStored(ph, nodes, alloc, at, n');
    assert nodes[at := n'][..alloc] == Open(StyleOf(ph), ctx) + [n'];
  }

  /** The string node whose closing quote has been read has a cell left for the NUL. */
  lemma {:induction false} QuoteTarget(
    d: Doc, ph: Phase, nodes: seq<Node>, alloc: nat, top: Option<nat>, base: nat, ctx: Ctx, acc: bytes,
    pos: nat, goal: Option<Json>, n: Node)
    requires PhaseOf(ph, goal) && Completes(d, ctx, Finished(JString(acc)), NoRemark, pos, goal)
    requires Stored(ph, nodes, alloc, top, base, ctx, Reading(false, acc, false))
    requires n == StringNode(ph, ctx, acc)
    ensures base == 0 && top == Some(Count(ctx)) && (ph.Filling? ==> CanPut(n, |acc|))
  {
    CompletesDef(d, ctx, Finished(JString(acc)), NoRemark, pos, goal);
    StoredDef(ph, nodes, alloc, top, base, ctx, Reading(false, acc, false));
    if ph.Filling? {
      StartingValue(d, ctx, ctx, Finished(JString(acc)), pos, ph.whole);
    }
    CloseStringNode(ph, ctx, acc, Count(ctx));
  }

  lemma QuoteStored(
    d: Doc, ph: Phase, nodes: seq<Node>, alloc: nat, top: Option<nat>, base: nat, ctx: Ctx, acc: bytes,
    pos: nat, goal: Option<Json>, n: Node, n': Node)
    requires PhaseOf(ph, goal) && Completes(d, ctx, Finished(JString(acc)), NoRemark, pos, goal)
    requires Stored(ph, nodes, alloc, top, base, ctx, Reading(false, acc, false))
    requires n == StringNode(ph, ctx, acc) && (ph.Filling? ==> CanPut(n, |acc|))
    requires n' == QuotedNode(ph, n, |acc|, |acc|)
    ensures top.Some? && top.value < |nodes| && nodes[top.value] == n
    ensures Stored(ph, nodes[top.value := n'], alloc, top, base, ctx, Finished(JString(acc)))
  {
    CompletesDef(d, ctx, Finished(JString(acc)), NoRemark, pos, goal);
    StoredDef(ph, nodes, alloc, top, base, ctx, Reading(false, acc, false));
    if ph.Filling? {
      StartingValue(d, ctx, ctx, Finished(JString(acc)), pos, ph.whole);
    }
    var m := QuotedFrame(ph, ctx, acc, n);
    QuoteRaw(ph, nodes, alloc, ctx, acc, n, n', top.value);
    StoredDef(ph, nodes[top.value := n'], alloc, top, base, ctx, Finished(JString(acc)));
  }

  /** The node of an object after the closing quote of a name. */
  function NamedNode(ph: Phase, n: Node, at: nat, len: nat): Node
    requires ph.Filling? ==> CanPut(n, at) && CanName(PutByte(n, at, NUL))
  {
    if ph.Filling? then Named(PutByte(n, at, NUL), len) else Counted(n, len)
  }

  lemma NamedFrame(ph: Phase, ctx: Ctx, acc: bytes, c: Ctx, n: Node) returns (n': Node)
    requires ctx.InObject? && |ctx.names| == |ctx.items| && !ph.Releasing?
    requires c == InObject(ctx.names + [acc], ctx.items, ctx.outer)
    requires ph.Filling? ==> HasRoom(ph, ctx, true, acc) && OnTrack(c, ph.whole)
    requires n == ObjectFrame(ph, ctx, acc)
    ensures ph.Filling? ==>
              n.nextName == NameBytes(ctx.names)
              && CanPut(n, n.nextName + |acc|) && CanName(PutByte(n, n.nextName + |acc|, NUL))
    ensures n' == NamedNode(ph, n, n.nextName + |acc|, |acc|)
    ensures OpenAs(StyleOf(ph), ctx, n') == Open(StyleOf(ph), c)
  {
    if ph.Filling? {
      WriteNameNode(ph, ctx, acc, c);
    } else {
      CountNameNode(ph, ctx, acc, c);
    }
    n' := NamedNode(ph, n, n.nextName + |acc|, |acc|);
    OpenIsOpenAs(StyleOf(ph), c);
  }

  lemma NameQuoteStored(
    d: Doc, ph: Phase, nodes: seq<Node>, alloc: nat, top: Option<nat>, base: nat, ctx: Ctx, acc: bytes, c: Ctx,
    pos: nat, goal: Option<Json>, n: Node)
    requires PhaseOf(ph, goal) && Completes(d, c, Seek(false, true), NoRemark, pos, goal)
    requires Stored(ph, nodes, alloc, top, base, ctx, Reading(true, acc, false))
    requires ctx.InObject? && c == InObject(ctx.names + [acc], ctx.items, ctx.outer)
    requires n == ObjectFrame(ph, ctx, acc)
    ensures top.Some? && top.value < |nodes| && nodes[top.value] == n
    ensures ph.Filling? ==>
              n.nextName == base && CanPut(n, base + |acc|) && CanName(PutByte(n, base + |acc|, NUL))
    ensures Stored(ph, nodes[top.value := NamedNode(ph, n, n.nextName + |acc|, |acc|)], alloc, top, base, c,
        Seek(false, true))
  {
    CompletesDef(d, c, Seek(false, true), NoRemark, pos, goal);
    StoredDef(ph, nodes, alloc, top, base, ctx, Reading(true, acc, false));
    if ph.Filling? {
      ResumeOnTrack(d, c, Seek(false, true), pos, ph.whole);
    }
    var n' := NamedFrame(ph, ctx, acc, c, n);
    UpdateOwner(StyleOf(ph), ctx, n, n', nodes[..alloc]);
    UpdateStored(ph, nodes, alloc, top.value, n');
    StoredDef(ph, nodes[top.value := NamedNode(ph, n, n.nextName + |acc|, |acc|)], alloc, top, base, c, Seek(false,
        true));
  }

  // ----- closing and linking -----

  /** A container that holds all its items is laid out as the complete value. */
  lemma {:induction false} ClosedFrame(ph: Phase, ctx: Ctx, v: Json)
    requires !ctx.Root? && !ph.Releasing?
    requires v == (if ctx.InArray? then JArray(ctx.items) else JObject(ctx.names, ctx.items))
    requires ctx.InObject? ==> |ctx.names| == |ctx.items|
    requires ph.Filling? ==> Hole(ctx.outer, ph.whole) == Some(v)
    ensures Open(StyleOf(ph), ctx) == Open(StyleOf(ph), ctx.outer) + Lay(HeadOf(ph), v, Owner(ctx.outer),
        Count(ctx.outer))
  {
    if ctx.InArray? {
      FullArray(ph, ctx);
    } else {
      FullObject(ph, ctx);
    }
    OpenIsOpenAs(StyleOf(ph), ctx);
    CloseContainer(StyleOf(ph), ctx, Frame(ph, ctx), v);
  }

  lemma CloseStored(
    d: Doc, ph: Phase, nodes: seq<Node>, alloc: nat, top: Option<nat>, base: nat, ctx: Ctx, mode: Mode, v: Json,
    pos: nat, goal: Option<Json>)
    requires PhaseOf(ph, goal) && !ctx.Root? && Completes(d, ctx.outer, Finished(v), NoRemark, pos, goal)
    requires (mode.Seek? && ctx.InArray? && v == JArray(ctx.items))
             || (mode.Body? && ctx.InObject? && v == JObject(ctx.names, ctx.items))
    requires Stored(ph, nodes, alloc, top, base, ctx, mode)
    ensures Stored(ph, nodes, alloc, top, base, ctx.outer, Finished(v))
  {
    CompletesDef(d, ctx.outer, Finished(v), NoRemark, pos, goal);
    StoredDef(ph, nodes, alloc, top, base, ctx, mode);
    if ph.Filling? {
      StartingValue(d, ctx.outer, ctx.outer, Finished(v), pos, ph.whole);
    }
    ClosedFrame(ph, ctx, v);
    StoredDef(ph, nodes, alloc, top, base, ctx.outer, Finished(v));
  }

  /** The root value has no container. */
  lemma RootStored(ph: Phase, nodes: seq<Node>, alloc: nat, top: Option<nat>, base: nat, v: Json)
    requires Stored(ph, nodes, alloc, top, base, Root, Finished(v))
    ensures Stored(ph, nodes, alloc, top, base, Root, Done(v))
  {
    StoredDef(ph, nodes, alloc, top, base, Root, Finished(v));
    var rest := Lay(HeadOf(ph), v, None, 0);
    assert Open(StyleOf(ph), Root) + rest == rest;
    StoredDef(ph, nodes, alloc, top, base, Root, Done(v));
  }

  /** The parent pointer of a finished value leads to the innermost container. */
  lemma ParentOfTop(ph: Phase, nodes: seq<Node>, alloc: nat, top: Option<nat>, base: nat, ctx: Ctx, v: Json)
    requires Stored(ph, nodes, alloc, top, base, ctx, Finished(v))
    ensures top.Some? && top.value < |nodes| && nodes[top.value].parent == Owner(ctx)
  {
    StoredDef(ph, nodes, alloc, top, base, ctx, Finished(v));
    assert nodes[..alloc][Count(ctx)] == HeadOf(ph)(v, Owner(ctx), Count(ctx));
  }

  lemma {:induction false} LinkFrame(ph: Phase, ctx: Ctx, v: Json, n: Node)
    requires !ctx.Root? && Placed(ph, ctx) && !ph.Releasing? && Pending(ctx)
    requires ph.Filling? ==> Hole(ctx, ph.whole) == Some(v)
    requires n == Frame(ph, ctx)
    ensures Placed(ph, Grow(ctx, v))
    ensures n.length == |ctx.items| && n.kind == (if ctx.InArray? then KArray else KObject)
    ensures CanLink(n, ph.Filling?) && Linked(n, Count(ctx), ph.Filling?) == Frame(ph, Grow(ctx, v))
  {
    if ctx.InArray? {
      LinkArray(ph, ctx, v, Grow(ctx, v));
    } else {
      LinkObject(ph, ctx, v, Grow(ctx, v));
    }
  }

  lemma {:induction false} LinkVisited(ph: Phase, ctx: Ctx, v: Json, n: Node, n': Node, c: Ctx, visited: seq<Node>)
    requires !ctx.Root? && c == Grow(ctx, v) && n == Frame(ph, ctx) && n' == Frame(ph, c)
    requires visited == Open(StyleOf(ph), ctx) + Lay(HeadOf(ph), v, Owner(ctx), Count(ctx))
    ensures Count(ctx.outer) < |visited| && visited[Count(ctx.outer)] == n
    ensures visited[Count(ctx.outer) := n'] == Open(StyleOf(ph), c)
  {
    var st := StyleOf(ph);
    OpenIsOpenAs(st, ctx);
    AppendValue(st, ctx, n, v, c, visited);
    UpdateOwner(st, c, n, n', visited);
    OpenIsOpenAs(st, c);
  }

  /** The container that a finished value is linked into. */
  lemma {:induction false} LinkTarget(
    d: Doc, ph: Phase, nodes: seq<Node>, alloc: nat, top: Option<nat>, base: nat, ctx: Ctx, v: Json,
    pos: nat, goal: Option<Json>, n: Node, at: nat, child: nat)
    requires PhaseOf(ph, goal) && !ctx.Root? && Completes(d, ctx, Finished(v), NoRemark, pos, goal)
    requires Stored(ph, nodes, alloc, top, base, ctx, Finished(v))
    requires n == Frame(ph, ctx) && at == Count(ctx.outer) && child == Count(ctx)
    ensures at < |nodes| && nodes[at] == n && top == Some(child)
    ensures n.length == |ctx.items| && n.kind == (if ctx.InArray? then KArray else KObject)
    ensures CanLink(n, ph.Filling?)
    ensures Placed(ph, Grow(ctx, v)) && Linked(n, child, ph.Filling?) == Frame(ph, Grow(ctx, v))
  {
    CompletesDef(d, ctx, Finished(v), NoRemark, pos, goal);
    StoredDef(ph, nodes, alloc, top, base, ctx, Finished(v));
    if ph.Filling? {
      StartingValue(d, ctx, ctx, Finished(v), pos, ph.whole);
    }
    LinkFrame(ph, ctx, v, n);
    LinkVisited(ph, ctx, v, n, Frame(ph, Grow(ctx, v)), Grow(ctx, v), nodes[..alloc]);
  }

  /** The arena between the values of containers. */
  lemma {:induction false} OpenArena(ph: Phase, nodes: seq<Node>, alloc: nat, c: Ctx, m: Mode)
    requires (m.Seek? || m.Body?) && Fits(c, m) && alloc <= |nodes| && !ph.Releasing? && Placed(ph, c)
    requires nodes[..alloc] == Open(StyleOf(ph), c)
    requires if ph.Filling? then Unvisited(ph.whole, nodes, alloc) else alloc == |nodes|
    ensures ArenaOk(ph, nodes, alloc, c, m)
  {
  }

  lemma {:induction false} LinkFits(ctx: Ctx, v: Json, c: Ctx, m: Mode)
    requires !ctx.Root? && Pending(ctx) && c == Grow(ctx, v)
    requires m == (if ctx.InArray? then Seek(true, false) else Body(true))
    ensures Fits(c, m) && Owner(c) == Some(Count(ctx.outer)) && TopOf(c, m) == Owner(c)
  {
  }

  /** The visited nodes when a value has just ended. */
  lemma {:induction false} FinishedArena(ph: Phase, nodes: seq<Node>, alloc: nat, ctx: Ctx, v: Json)
    requires Pending(ctx) && ArenaOk(ph, nodes, alloc, ctx, Finished(v))
    ensures alloc <= |nodes| && !ph.Releasing?
    ensures nodes[..alloc] == Open(StyleOf(ph), ctx) + Lay(HeadOf(ph), v, Owner(ctx), Count(ctx))
    ensures if ph.Filling? then Unvisited(ph.whole, nodes, alloc) else alloc == |nodes|
  {
  }

  /** The arena after a visited node has been given its new record. */
  lemma {:induction false} RewriteArena(
    ph: Phase, nodes: seq<Node>, alloc: nat, visited: seq<Node>, n': Node, at: nat, c: Ctx, m: Mode)
    requires (m.Seek? || m.Body?) && Fits(c, m) && alloc <= |nodes| && !ph.Releasing? && Placed(ph, c)
    requires visited == nodes[..alloc] && at < |visited| && visited[at := n'] == Open(StyleOf(ph), c)
    requires if ph.Filling? then Unvisited(ph.whole, nodes, alloc) else alloc == |nodes|
    ensures ArenaOk(ph, nodes[at := n'], alloc, c, m)
  {
    UpdateStored(ph, nodes, alloc, at, n');
    OpenArena(ph, nodes[at := n'], alloc, c, m);
  }

  lemma {:induction false} LinkRaw(
    ph: Phase, nodes: seq<Node>, alloc: nat, ctx: Ctx, v: Json, n: Node, n': Node, at: nat, c: Ctx, m: Mode)
    requires !ctx.Root? && Pending(ctx) && ArenaOk(ph, nodes, alloc, ctx, Finished(v)) && Placed(ph, c)
    requires n == Frame(ph, ctx) && n' == Frame(ph, c) && at == Count(ctx.outer) && c == Grow(ctx, v)
    requires m == (if ctx.InArray? then Seek(true, false) else Body(true))
    ensures at < |nodes| && Fits(c, m) && ArenaOk(ph, nodes[at := n'], alloc, c, m)
  {
    FinishedArena(ph, nodes, alloc, ctx, v);
    LinkVisited(ph, ctx, v, n, n', c, nodes[..alloc]);
    LinkFits(ctx, v, c, m);
    RewriteArena(ph, nodes, alloc, nodes[..alloc], n', at, c, m);
  }

  lemma LinkStored(
    ph: Phase, nodes: seq<Node>, alloc: nat, top: Option<nat>, base: nat, ctx: Ctx, v: Json,
    n: Node, n': Node, at: nat, c: Ctx, m: Mode)
    requires !ctx.Root? && Stored(ph, nodes, alloc, top, base, ctx, Finished(v))
    requires n == Frame(ph, ctx) && at == Count(ctx.outer)
    requires c == Grow(ctx, v) && m == (if ctx.InArray? then Seek(true, false) else Body(true))
    requires Placed(ph, c) && n' == Frame(ph, c)
    ensures at < |nodes| && Stored(ph, nodes[at := n'], alloc, Some(at), base, c, m)
  {
    StoredDef(ph, nodes, alloc, top, base, ctx, Finished(v));
    LinkRaw(ph, nodes, alloc, ctx, v, n, n', at, c, m);
    LinkFits(ctx, v, c, m);
    StoredDef(ph, nodes[at := n'], alloc, Some(at), base, c, m);
  }

  /** Writing to a visited node changes that node alone. */
  lemma UpdateStored(ph: Phase, nodes: seq<Node>, alloc: nat, k: nat, n: Node)
    requires k < alloc <= |nodes|
    requires if ph.Filling? then Unvisited(ph.whole, nodes, alloc) else alloc == |nodes|
    ensures nodes[k := n][..alloc] == nodes[..alloc][k := n]
    ensures if ph.Filling? then Unvisited(ph.whole, nodes[k := n], alloc) else alloc == |nodes[k := n]|
  {
    if ph.Filling? {
      UpdateVisited(ph.whole, nodes, alloc, k, n);
    }
  }

  // ----- numbers in the first pass -----

  lemma NumberStored(
    ph: Phase, nodes: seq<Node>, alloc: nat, top: Option<nat>, base: nat, ctx: Ctx, start: nat,
    nodes': seq<Node>, alloc': nat, top': Option<nat>)
    requires ph.Counting? && Stored(ph, nodes, alloc, top, base, ctx, Seek(false, false))
    requires nodes' == nodes + [NewNode(KInteger, top)]
    requires alloc' == alloc + 1 && top' == Some(alloc)
    ensures Stored(ph, nodes', alloc', top', base, ctx, Digits(start))
  {
    StoredDef(ph, nodes, alloc, top, base, ctx, Seek(false, false));
    PushRaw(ph, nodes, alloc, ctx, NewNode(KInteger, top), nodes', alloc');
    StoredDef(ph, nodes', alloc', top', base, ctx, Digits(start));
  }

  /** The node of the number that is being read is the last one. */
  lemma DigitTop(ph: Phase, nodes: seq<Node>, alloc: nat, top: Option<nat>, base: nat, ctx: Ctx, start: nat)
    requires ph.Counting? && Stored(ph, nodes, alloc, top, base, ctx, Digits(start))
    ensures top == Some(|nodes| - 1) && alloc == |nodes| > 0
    ensures IsNumberNode(nodes[alloc - 1], Owner(ctx))
  {
    StoredDef(ph, nodes, alloc, top, base, ctx, Digits(start));
    assert nodes[..alloc] == nodes;
  }

  lemma {:induction false} DigitArena(ph: Phase, nodes: seq<Node>, alloc: nat, ctx: Ctx, start: nat, n: Node)
    requires ph.Counting? && Pending(ctx) && ArenaOk(ph, nodes, alloc, ctx, Digits(start))
    requires alloc == |nodes| > 0 && IsNumberNode(n, Owner(ctx))
    ensures ArenaOk(ph, nodes[alloc - 1 := n], alloc, ctx, Digits(start))
  {
    var nodes' := nodes[alloc - 1 := n];
    assert nodes[..alloc] == nodes;
    assert nodes'[..alloc] == nodes';
    assert nodes' == nodes[..alloc - 1] + [n];
    assert nodes[..alloc - 1] == Open(StyleOf(ph), ctx);
  }

  lemma DigitStored(
    ph: Phase, nodes: seq<Node>, alloc: nat, top: Option<nat>, base: nat, ctx: Ctx, start: nat, n: Node)
    requires ph.Counting? && Stored(ph, nodes, alloc, top, base, ctx, Digits(start))
    requires alloc == |nodes| > 0 && IsNumberNode(n, nodes[alloc - 1].parent)
    ensures Stored(ph, nodes[alloc - 1 := n], alloc, top, base, ctx, Digits(start))
  {
    DigitTop(ph, nodes, alloc, top, base, ctx, start);
    StoredDef(ph, nodes, alloc, top, base, ctx, Digits(start));
    DigitArena(ph, nodes, alloc, ctx, start, n);
    StoredDef(ph, nodes[alloc - 1 := n], alloc, top, base, ctx, Digits(start));
  }

  lemma NumberEndStored(
    ph: Phase, nodes: seq<Node>, alloc: nat, top: Option<nat>, base: nat, ctx: Ctx, start: nat, v: Json)
    requires ph.Counting? && Stored(ph, nodes, alloc, top, base, ctx, Digits(start))
    requires 0 < alloc <= |nodes|
    requires if nodes[alloc - 1].kind == KInteger then v == JInteger(nodes[alloc - 1].integer) else v == JDouble
    ensures Stored(ph, nodes, alloc, top, base, ctx, Finished(v))
  {
    StoredDef(ph, nodes, alloc, top, base, ctx, Digits(start));
    PushLeaf(ph, ctx, nodes[alloc - 1], v, nodes[..alloc]);
    StoredDef(ph, nodes, alloc, top, base, ctx, Finished(v));
  }

  // ----- what the code sees through the top pointer -----

  lemma TopSeeking(ph: Phase, nodes: seq<Node>, alloc: nat, top: Option<nat>, base: nat, ctx: Ctx, mode: Mode)
    requires Stored(ph, nodes, alloc, top, base, ctx, mode) && (mode.Seek? || mode.Body?)
    ensures top.Some? <==> !ctx.Root?
    ensures top.Some? ==> top.value < |nodes| && nodes[top.value].kind == if ctx.InArray? then KArray else KObject
  {
    StoredDef(ph, nodes, alloc, top, base, ctx, mode);
    if !ctx.Root? {
      OpenIsOpenAs(StyleOf(ph), ctx);
      UpdateOwner(StyleOf(ph), ctx, Frame(ph, ctx), Frame(ph, ctx), nodes[..alloc]);
    }
  }

  lemma TopReading(
    ph: Phase, nodes: seq<Node>, alloc: nat, top: Option<nat>, base: nat, ctx: Ctx, mode: Mode, n: Node)
    requires Stored(ph, nodes, alloc, top, base, ctx, mode) && mode.Reading? && (mode.key ==> ctx.InObject?)
    requires n == if mode.key then ObjectFrame(ph, ctx, mode.acc) else StringNode(ph, ctx, mode.acc)
    ensures top.Some? && top.value < |nodes| && nodes[top.value] == n
    ensures n.kind == if mode.key then KObject else KString
  {
    StoredDef(ph, nodes, alloc, top, base, ctx, mode);
    if mode.key {
      UpdateOwner(StyleOf(ph), ctx, n, n, nodes[..alloc]);
    }
  }

  // ----- the same, as the code sees it: through the node at the top pointer -----

  lemma StringQuote(
    d: Doc, ph: Phase, nodes: seq<Node>, alloc: nat, top: Option<nat>, base: nat, ctx: Ctx, acc: bytes,
    pos: nat, goal: Option<Json>, at: nat, len: nat)
    requires PhaseOf(ph, goal) && Completes(d, ctx, Finished(JString(acc)), NoRemark, pos, goal)
    requires Stored(ph, nodes, alloc, top, base, ctx, Reading(false, acc, false))
    requires at == base + |acc| && len == |acc|
    ensures top.Some? && top.value < |nodes| && nodes[top.value].kind == KString
    ensures ph.Filling? ==> CanPut(nodes[top.value], at)
    ensures Stored(ph, nodes[top.value := QuotedNode(ph, nodes[top.value], at, len)], alloc, top, base, ctx,
                   Finished(JString(acc)))
  {
    var n := StringNode(ph, ctx, acc);
    QuoteTarget(d, ph, nodes, alloc, top, base, ctx, acc, pos, goal, n);
    QuoteStored(d, ph, nodes, alloc, top, base, ctx, acc, pos, goal, n, QuotedNode(ph, n, |acc|, |acc|));
  }

  lemma NameQuote(
    d: Doc, ph: Phase, nodes: seq<Node>, alloc: nat, top: Option<nat>, base: nat, ctx: Ctx, acc: bytes, c: Ctx,
    pos: nat, goal: Option<Json>, at: nat, len: nat)
    requires PhaseOf(ph, goal) && Completes(d, c, Seek(false, true), NoRemark, pos, goal)
    requires Stored(ph, nodes, alloc, top, base, ctx, Reading(true, acc, false))
    requires ctx.InObject? && c == InObject(ctx.names + [acc], ctx.items, ctx.outer)
    requires at == base + |acc| && len == |acc|
    ensures top.Some? && top.value < |nodes| && nodes[top.value].kind == KObject
    ensures ph.Filling? ==>
              var n := nodes[top.value];
              n.nextName == base && CanPut(n, at) && CanName(PutByte(n, at, NUL))
    ensures Stored(ph, nodes[top.value := NamedNode(ph, nodes[top.value], at, len)], alloc, top, base, c, Seek(false,
        true))
  {
    var n := ObjectFrame(ph, ctx, acc);
    NameQuoteStored(d, ph, nodes, alloc, top, base, ctx, acc, c, pos, goal, n);
    TopReading(ph, nodes, alloc, top, base, ctx, Reading(true, acc, false), n);
  }

  lemma LinkParent(
    d: Doc, ph: Phase, nodes: seq<Node>, alloc: nat, top: Option<nat>, base: nat, ctx: Ctx, v: Json,
    pos: nat, goal: Option<Json>, at: nat, c: Ctx, m: Mode)
    requires PhaseOf(ph, goal) && !ctx.Root? && Completes(d, ctx, Finished(v), NoRemark, pos, goal)
    requires Stored(ph, nodes, alloc, top, base, ctx, Finished(v))
    requires Owner(ctx) == Some(at)
    requires c == Grow(ctx, v) && m == (if ctx.InArray? then Seek(true, false) else Body(true))
    ensures top.Some? && at < |nodes| && nodes[at].length == |ctx.items|
    ensures nodes[at].kind == (if ctx.InArray? then KArray else KObject)
    ensures CanLink(nodes[at], ph.Filling?)
    ensures Stored(ph, nodes[at := Linked(nodes[at], top.value, ph.Filling?)], alloc, Some(at), base, c, m)
  {
    var n := Frame(ph, ctx);
    LinkTarget(d, ph, nodes, alloc, top, base, ctx, v, pos, goal, n, at, Count(ctx));
    LinkStored(ph, nodes, alloc, top, base, ctx, v, n, Linked(n, Count(ctx), ph.Filling?), at, c, m);
  }

  // ----- the ends of the passes -----

  /** After the first pass the arena is the skeleton of the tree, after the second the tree itself. */
  lemma {:induction false} PassEnd(ph: Phase, nodes: seq<Node>, alloc: nat, top: Option<nat>, base: nat, v: Json)
    requires Stored(ph, nodes, alloc, top, base, Root, Done(v))
    requires ph.Filling? ==> ph.whole == v
    ensures nodes == Lay(HeadOf(ph), v, None, 0) && 0 < alloc == |nodes|
  {
    StoredDef(ph, nodes, alloc, top, base, Root, Done(v));
    if ph.Filling? {
      assert alloc == |nodes|;
    }
    assert nodes[..alloc] == nodes;
  }

  lemma PassStart(ph: Phase, nodes: seq<Node>, alloc: nat, top: Option<nat>, base: nat, ctx: Ctx, mode: Mode)
    requires (ph.Counting? && nodes == []) || (ph.Filling? && nodes == Lay(FirstHead, ph.whole, None, 0))
    requires alloc == 0 && top == None && ctx == Root && mode == Seek(false, false)
    ensures Stored(ph, nodes, alloc, top, base, ctx, mode)
  {
    assert nodes[..0] == [];
    StoredDef(ph, nodes, alloc, top, base, ctx, mode);
  }

  /** The kind of the top node tells a string value from a name. */
  lemma TopString(ph: Phase, nodes: seq<Node>, alloc: nat, top: Option<nat>, base: nat, ctx: Ctx, mode: Mode)
    requires Stored(ph, nodes, alloc, top, base, ctx, mode) && mode.Reading? && (mode.key ==> ctx.InObject?)
    ensures top.Some? && top.value < |nodes| && nodes[top.value].kind == if mode.key then KObject else KString
  {
    TopReading(ph, nodes, alloc, top, base, ctx, mode,
               if mode.key then ObjectFrame(ph, ctx, mode.acc) else StringNode(ph, ctx, mode.acc));
  }

  /** Separators change nothing in the arena. */
  lemma SeekStored(
    ph: Phase, nodes: seq<Node>, alloc: nat, top: Option<nat>, base: nat, ctx: Ctx, mode: Mode, mode': Mode)
    requires Stored(ph, nodes, alloc, top, base, ctx, mode)
    requires (mode.Seek? && mode'.Seek?) || (mode.Body? && mode'.Body?)
    requires Fits(ctx, mode')
    ensures Stored(ph, nodes, alloc, top, base, ctx, mode')
  {
    StoredDef(ph, nodes, alloc, top, base, ctx, mode);
    StoredDef(ph, nodes, alloc, top, base, ctx, mode');
  }

  /** Outside strings, the kind of the top node is that of the innermost container or a number's. */
  lemma TopKind(ph: Phase, nodes: seq<Node>, alloc: nat, top: Option<nat>, base: nat, ctx: Ctx, mode: Mode)
    requires Stored(ph, nodes, alloc, top, base, ctx, mode) && (mode.Body? || mode.Digits?)
    ensures top.Some? && top.value < |nodes|
    ensures mode.Body? <==> nodes[top.value].kind == KObject
    ensures mode.Digits? ==> 0 < alloc <= |nodes| && top.value == alloc - 1
                             && (nodes[top.value].kind == KInteger || nodes[top.value].kind == KDouble)
  {
    StoredDef(ph, nodes, alloc, top, base, ctx, mode);
    if mode.Body? {
      TopSeeking(ph, nodes, alloc, top, base, ctx, mode);
    } else {
      assert nodes[..alloc][Count(ctx)] == nodes[Count(ctx)];
    }
  }

  /** The parent of a finished value is the innermost container. */
  lemma KindOfParent(
    ph: Phase, nodes: seq<Node>, alloc: nat, top: Option<nat>, base: nat, ctx: Ctx, v: Json, parent: nat)
    requires Stored(ph, nodes, alloc, top, base, ctx, Finished(v)) && Owner(ctx) == Some(parent)
    ensures parent < |nodes| && nodes[parent].kind == if ctx.InArray? then KArray else KObject
  {
    StoredDef(ph, nodes, alloc, top, base, ctx, Finished(v));
    OpenIsOpenAs(StyleOf(ph), ctx);
    UpdateOwner(StyleOf(ph), ctx, Frame(ph, ctx), Frame(ph, ctx), Open(StyleOf(ph), ctx));
    assert nodes[..alloc][parent] == Frame(ph, ctx);
  }
}
