/** json_object_free_ex: an iterative post-order teardown driven by the length fields and parent links. */
module Destructor {
  import opened Bytes
  import opened Grammar
  import opened Preorder
  import opened Layout
  import opened Context
  import opened Arena
  import opened Styles
  import opened Sizes
  import opened Ledger
  import opened Memory
  import opened Reader
  import Parser

  lemma {:induction false} WellFormedHole(ctx: Ctx, whole: Json, v: Json)
    requires WellFormed(whole) && Hole(ctx, whole) == Some(v)
    ensures WellFormed(v)
    decreases ctx
  {
    if !ctx.Root? {
      WellFormedHole(ctx.outer, whole, Hole(ctx.outer, whole).value);
    }
  }

  /** The node and its block are gone. */
  predicate Gone(n: Node) {
    n.freed && (n.block.NoBlock? || n.block.Released?)
  }

  /** `ctx` holds the links that are left; `pend` is the value just descended to, if any. */
  predicate Sound(whole: Json, ctx: Ctx, pend: Option<Json>) {
    && OnTrack(ctx, whole)
    && if pend.Some? then Pending(ctx) && Hole(ctx, whole) == pend
       else !ctx.Root? ==> Pending(ctx.outer) && (ctx.InObject? ==> |ctx.names| == |ctx.items|)
  }

  /** The nodes that are left are the first `m` ones, and they form what `ctx` and `pend` say. */
  ghost predicate Left(whole: Json, nodes: seq<Node>, m: nat, ctx: Ctx, pend: Option<Json>, value: Option<nat>) {
    && m <= |nodes|
    && (forall k | m <= k < |nodes| :: Gone(nodes[k]))
    && if pend.None? then nodes[..m] == Open(StyleOf(Releasing(whole)), ctx) && value == Owner(ctx)
       else
         && nodes[..m] == Open(StyleOf(Releasing(whole)), ctx) + Lay(FinalHead, pend.value, Owner(ctx), Count(ctx))
         && value == Some(Count(ctx))
  }

  /** The open container that a complete container is, as long as no link has been followed. */
  function Entered(ctx: Ctx, v: Json): Ctx
    requires v.JArray? || v.JObject?
  {
    if v.JArray? then InArray(v.items, ctx) else InObject(v.names, v.items, ctx)
  }

  lemma {:induction false} EnteredArray(whole: Json, ctx: Ctx, items: seq<Json>, c: Ctx)
    requires c == InArray(items, ctx) && FinalItems(c, whole) == items
    ensures ArrayFrame(Releasing(whole), c) == FinalHead(JArray(items), Owner(ctx), Count(ctx))
  {
  }

  lemma {:induction false} EnteredObject(whole: Json, ctx: Ctx, names: seq<bytes>, items: seq<Json>, c: Ctx)
    requires c == InObject(names, items, ctx) && |names| == |items|
    requires FinalItems(c, whole) == items && FinalNames(c, whole) == names
    ensures ObjectFrame(Releasing(whole), c, []) == FinalHead(JObject(names, items), Owner(ctx), Count(ctx))
  {
  }

  lemma {:induction false} EnteredFrame(whole: Json, ctx: Ctx, v: Json, c: Ctx)
    requires (v.JArray? || v.JObject?) && c == Entered(ctx, v) && Hole(ctx, whole) == Some(v)
    requires v.JObject? ==> |v.names| == |v.items|
    ensures Frame(Releasing(whole), c) == FinalHead(v, Owner(ctx), Count(ctx))
  {
    if v.JArray? {
      EnteredArray(whole, ctx, v.items, c);
    } else {
      EnteredObject(whole, ctx, v.names, v.items, c);
    }
  }

  /** Arriving at a container: it becomes the innermost open one. */
  lemma {:induction false} Enter(whole: Json, nodes: seq<Node>, m: nat, ctx: Ctx, v: Json, value: Option<nat>, c: Ctx)
    requires WellFormed(whole) && Sound(whole, ctx, Some(v)) && Left(whole, nodes, m, ctx, Some(v), value)
    requires (v.JArray? || v.JObject?) && c == Entered(ctx, v)
    ensures Sound(whole, c, None) && Left(whole, nodes, m, c, None, value)
  {
    WellFormedHole(ctx, whole, v);
    EnteredOpen(whole, ctx, v, c);
  }

  lemma {:induction false} EnteredOpen(whole: Json, ctx: Ctx, v: Json, c: Ctx)
    requires (v.JArray? || v.JObject?) && c == Entered(ctx, v) && Hole(ctx, whole) == Some(v)
    requires v.JObject? ==> |v.names| == |v.items|
    ensures Open(StyleOf(Releasing(whole)), c)
            == Open(StyleOf(Releasing(whole)), ctx) + Lay(FinalHead, v, Owner(ctx), Count(ctx))
  {
    var st := StyleOf(Releasing(whole));
    EnteredFrame(whole, ctx, v, c);
    OpenIsOpenAs(st, c);
    CloseContainer(st, c, Frame(Releasing(whole), c), v);
  }

  /** The innermost container without its last remaining link. */
  function Shrink(ctx: Ctx): Ctx
    requires !ctx.Root? && |ctx.items| > 0
  {
    var rest := ctx.items[..|ctx.items| - 1];
    if ctx.InArray? then InArray(rest, ctx.outer) else InObject(ctx.names, rest, ctx.outer)
  }

  lemma LinkInArray(whole: Json, ctx: Ctx, n: Node, k: nat, full: seq<Json>)
    requires ctx.InArray? && n == ArrayFrame(Releasing(whole), ctx)
    requires full == FinalItems(ctx, whole) && k < |full|
    ensures LinkOf(n, k) == Some(Count(ctx.outer) + 1 + SizeAll(full[..k]))
  {
    RefAt(full, k, Count(ctx.outer) + 1);
  }

  lemma LinkInObject(whole: Json, ctx: Ctx, n: Node, k: nat, full: seq<Json>)
    requires ctx.InObject? && n == ObjectFrame(Releasing(whole), ctx, [])
    requires full == FinalItems(ctx, whole) && k < |full| == |FinalNames(ctx, whole)|
    ensures LinkOf(n, k) == Some(Count(ctx.outer) + 1 + SizeAll(full[..k]))
  {
    SlotAt(FinalNames(ctx, whole), full, k, Count(ctx.outer) + 1);
  }

  lemma {:induction false} ShrinkCount(whole: Json, ctx: Ctx, k: nat, full: seq<Json>)
    requires OnTrack(ctx, whole) && !ctx.Root? && |ctx.items| == k + 1 && full == FinalItems(ctx, whole)
    ensures k < |full| && Count(Shrink(ctx)) == Count(ctx.outer) + 1 + SizeAll(full[..k])
    ensures ctx.InObject? ==> |full| == |FinalNames(ctx, whole)|
  {
    assert full[..k] == ctx.items[..k];
  }

  /** The last link that is left. */
  lemma LastLink(whole: Json, ctx: Ctx, n: Node, k: nat)
    requires Sound(whole, ctx, None) && !ctx.Root? && n == Frame(Releasing(whole), ctx)
    requires |ctx.items| == k + 1
    ensures LinkOf(n, k) == Some(Count(Shrink(ctx)))
  {
    var full := FinalItems(ctx, whole);
    ShrinkCount(whole, ctx, k, full);
    if ctx.InArray? {
      LinkInArray(whole, ctx, n, k, full);
    } else {
      LinkInObject(whole, ctx, n, k, full);
    }
  }

  /** What the node of the innermost container says. */
  lemma ContainerNode(whole: Json, ctx: Ctx, n: Node)
    requires Sound(whole, ctx, None) && !ctx.Root? && n == Frame(Releasing(whole), ctx)
    ensures n.kind == (if ctx.InArray? then KArray else KObject) && !n.freed
    ensures n.length == |ctx.items| && n.parent == Owner(ctx.outer) && !n.block.Released?
    ensures |ctx.items| > 0 ==> LinkOf(n, |ctx.items| - 1) == Some(Count(Shrink(ctx)))
  {
    if |ctx.items| > 0 {
      LastLink(whole, ctx, n, |ctx.items| - 1);
    }
  }

  lemma ShrinkFrame(whole: Json, ctx: Ctx, c: Ctx)
    requires !ctx.Root? && |ctx.items| > 0 && c == Shrink(ctx)
    ensures Frame(Releasing(whole), c) == Frame(Releasing(whole), ctx).(length := |ctx.items| - 1)
  {
    assert FinalItems(c, whole) == FinalItems(ctx, whole) && FinalNames(c, whole) == FinalNames(ctx, whole);
  }

  lemma SoundShrink(whole: Json, ctx: Ctx, c: Ctx, v: Json)
    requires Sound(whole, ctx, None) && !ctx.Root? && |ctx.items| > 0
    requires c == Shrink(ctx) && v == ctx.items[|ctx.items| - 1]
    ensures Sound(whole, c, Some(v))
    ensures Frame(Releasing(whole), c) == Frame(Releasing(whole), ctx).(length := |ctx.items| - 1)
    ensures Grow(c, v) == ctx
  {
    ShrinkFrame(whole, ctx, c);
    assert ctx.items[..|ctx.items| - 1] + [v] == ctx.items;
  }

  /** Following the last remaining link of the innermost container. */
  lemma {:induction false} Descend(whole: Json, nodes: seq<Node>, m: nat, ctx: Ctx, value: Option<nat>, c: Ctx,
      v: Json, n': Node)
    requires Sound(whole, ctx, None) && Left(whole, nodes, m, ctx, None, value) && !ctx.Root? && |ctx.items| > 0
    requires c == Shrink(ctx) && v == ctx.items[|ctx.items| - 1]
    requires n' == Frame(Releasing(whole), ctx).(length := |ctx.items| - 1)
    ensures value.Some? && value.value < m
    ensures Sound(whole, c, Some(v)) && Left(whole, nodes[value.value := n'], m, c, Some(v), Some(Count(c)))
    ensures value.value < Count(c) < m
  {
    var st, n, at := StyleOf(Releasing(whole)), Frame(Releasing(whole), ctx), Count(ctx.outer);
    SoundShrink(whole, ctx, c, v);
    OpenIsOpenAs(st, ctx);
    assert nodes[..m] == Open(st, ctx);
    UpdateOwner(st, ctx, n, n', nodes[..m]);
    assert nodes[at := n'][..m] == nodes[..m][at := n'];
    OpenIsOpenAs(st, c);
    AppendValue(st, c, n', v, ctx, Open(st, c) + Lay(FinalHead, v, Owner(c), Count(c)));
  }

  /** The node at the value pointer. */
  lemma {:induction false} ValueNode(whole: Json, nodes: seq<Node>, m: nat, ctx: Ctx, pend: Option<Json>,
      value: Option<nat>)
    requires Sound(whole, ctx, pend) && Left(whole, nodes, m, ctx, pend, value)
    ensures value.None? <==> pend.None? && ctx.Root?
    ensures value.Some? ==> value.value < m
    ensures value.Some? ==>
              nodes[value.value] == if pend.None? then Frame(Releasing(whole), ctx)
                                    else FinalHead(pend.value, Owner(ctx), Count(ctx))
  {
    if pend.Some? {
      assert nodes[..m][Count(ctx)] == FinalHead(pend.value, Owner(ctx), Count(ctx));
    } else if !ctx.Root? {
      var st, n := StyleOf(Releasing(whole)), Frame(Releasing(whole), ctx);
      OpenIsOpenAs(st, ctx);
      assert nodes[..m] == Open(st, ctx);
      UpdateOwner(st, ctx, n, n, nodes[..m]);
    }
  }

  /** The context after the innermost container, or the value just descended to, is gone. */
  function Leave(ctx: Ctx): Ctx {
    match ctx
    case InObject(names, items, outer) =>
      if |names| == |items| + 1 then InObject(names[..|items|], items, outer) else ctx
    case _ => ctx
  }

  lemma {:induction false} LeaveSound(whole: Json, ctx: Ctx, c: Ctx)
    requires OnTrack(ctx, whole) && Pending(ctx) && c == Leave(ctx)
    ensures Sound(whole, c, None)
  {
  }

  lemma {:induction false} LeaveFrame(whole: Json, ctx: Ctx, c: Ctx)
    requires ctx.InObject? && OnTrack(ctx, whole) && Pending(ctx) && c == Leave(ctx)
    ensures Frame(Releasing(whole), c) == Frame(Releasing(whole), ctx)
  {
    assert FinalItems(c, whole) == FinalItems(ctx, whole) && FinalNames(c, whole) == FinalNames(ctx, whole);
  }

  lemma {:induction false} LeaveSame(whole: Json, ctx: Ctx, c: Ctx)
    requires OnTrack(ctx, whole) && Pending(ctx) && c == Leave(ctx)
    ensures Open(StyleOf(Releasing(whole)), c) == Open(StyleOf(Releasing(whole)), ctx)
    ensures Owner(c) == Owner(ctx) && Count(c) == Count(ctx)
  {
    if ctx.InObject? {
      var st := StyleOf(Releasing(whole));
      LeaveFrame(whole, ctx, c);
      OpenIsOpenAs(st, c);
      OpenIsOpenAs(st, ctx);
    }
  }

  /** What remains without the value just descended to, or without the innermost container. */
  function Rest(ctx: Ctx, pend: Option<Json>): Ctx
    requires pend.None? ==> !ctx.Root?
  {
    if pend.Some? then ctx else ctx.outer
  }

  /** A leaf, or a container without links, is the last node that is left. */
  lemma {:induction false} LastNode(whole: Json, nodes: seq<Node>, m: nat, ctx: Ctx, pend: Option<Json>, value: nat,
      rest: Ctx)
    requires Sound(whole, ctx, pend) && Left(whole, nodes, m, ctx, pend, Some(value))
    requires if pend.Some? then !pend.value.JArray? && !pend.value.JObject? else |ctx.items| == 0
    requires rest == Rest(ctx, pend)
    ensures m == value + 1 && nodes[..value] == Open(StyleOf(Releasing(whole)), rest)
    ensures OnTrack(rest, whole) && Pending(rest)
  {
    var st := StyleOf(Releasing(whole));
    if pend.None? {
      OpenContainer(st, ctx, Frame(Releasing(whole), ctx));
      OpenIsOpenAs(st, ctx);
    }
    assert nodes[..m][..value] == Open(st, rest);
    assert nodes[..value] == nodes[..m][..value];
  }

  lemma {:induction false} LeftOpen(whole: Json, nodes: seq<Node>, m: nat, c: Ctx, value: Option<nat>)
    requires m <= |nodes| && (forall k | m <= k < |nodes| :: Gone(nodes[k]))
    requires nodes[..m] == Open(StyleOf(Releasing(whole)), c) && value == Owner(c)
    ensures Left(whole, nodes, m, c, None, value)
  {
  }

  lemma {:induction false} DropLast(nodes: seq<Node>, value: nat, n': Node, nodes': seq<Node>)
    requires value < |nodes| && Gone(n') && forall k | value < k < |nodes| :: Gone(nodes[k])
    requires nodes' == nodes[value := n']
    ensures nodes'[..value] == nodes[..value]
    ensures forall k | value <= k < |nodes'| :: Gone(nodes'[k])
  {
  }

  lemma {:induction false} Drop(whole: Json, nodes: seq<Node>, value: nat, rest: Ctx, c: Ctx, n': Node)
    requires value < |nodes| && nodes[..value] == Open(StyleOf(Releasing(whole)), rest)
    requires OnTrack(rest, whole) && Pending(rest) && c == Leave(rest)
    requires Gone(n') && forall k | value < k < |nodes| :: Gone(nodes[k])
    ensures Sound(whole, c, None) && Left(whole, nodes[value := n'], value, c, None, Owner(rest))
  {
    LeaveSound(whole, rest, c);
    LeaveSame(whole, rest, c);
    DropLast(nodes, value, n', nodes[value := n']);
    LeftOpen(whole, nodes[value := n'], value, c, Owner(rest));
  }

  /** Where the teardown stands: how many nodes are left, and what they form. */
  datatype Stand = Stand(m: nat, ctx: Ctx, pend: Option<Json>)

  ghost predicate Standing(whole: Json, nodes: seq<Node>, at: Stand, value: Option<nat>) {
    && Sound(whole, at.ctx, at.pend)
    && Left(whole, nodes, at.m, at.ctx, at.pend, value)
  }

  /** A container is not merely arrived at: it is the innermost open one. */
  predicate Resting(at: Stand) {
    at.pend.Some? ==> !at.pend.value.JArray? && !at.pend.value.JObject?
  }

  /** The ghost side of arriving at a value. */
  lemma Settle(whole: Json, nodes: seq<Node>, at: Stand, value: Option<nat>) returns (at': Stand)
    requires WellFormed(whole) && Standing(whole, nodes, at, value)
    ensures Standing(whole, nodes, at', value) && Resting(at') && at'.m == at.m
    ensures value.Some? ==> value.value < at'.m && !nodes[value.value].freed
    ensures value.None? ==> at'.m == 0
  {
    at' := at;
    if !Resting(at) {
      var c := Entered(at.ctx, at.pend.value);
      Enter(whole, nodes, at.m, at.ctx, at.pend.value, value, c);
      at' := Stand(at.m, c, None);
    }
    ValueNode(whole, nodes, at'.m, at'.ctx, at'.pend, value);
    if at'.pend.None? && value.Some? {
      ContainerNode(whole, at'.ctx, nodes[value.value]);
    }
  }

  predicate HasLinks(n: Node) {
    (n.kind == KArray || n.kind == KObject) && n.length > 0
  }

  /** The node with one link less, and the node that this link leads to. */
  function Shortened(n: Node): Node
    requires HasLinks(n)
  {
    n.(length := n.length - 1)
  }

  /** Following the last link of a container. */
  lemma FollowFacts(whole: Json, nodes: seq<Node>, at: Stand, cur: nat, n: Node,
      value: Option<nat>) returns (at': Stand)
    requires Standing(whole, nodes, at, Some(cur)) && Resting(at)
    requires cur < at.m && cur < |nodes| && n == nodes[cur] && HasLinks(n)
    requires value == LinkOf(n, n.length - 1)
    ensures Standing(whole, nodes[cur := Shortened(n)], at', value)
    ensures value.Some? && at'.m == at.m && cur < value.value < at.m
  {
    var ctx := at.ctx;
    ValueNode(whole, nodes, at.m, ctx, at.pend, Some(cur));
    if at.pend.Some? {
      LeafHead(at.pend.value, Owner(ctx), Count(ctx), n);
    }
    ContainerNode(whole, ctx, n);
    var c, v := Shrink(ctx), ctx.items[|ctx.items| - 1];
    Descend(whole, nodes, at.m, ctx, Some(cur), c, v, Shortened(n));
    at' := Stand(at.m, c, Some(v));
  }

  lemma LeafHead(v: Json, parent: Option<nat>, at: nat, n: Node)
    requires n == FinalHead(v, parent, at) && !v.JArray? && !v.JObject?
    ensures !HasLinks(n) && n.parent == parent && !n.block.Released?
    ensures n.kind != KString ==> n.block.NoBlock?
  {
  }

  /** Releasing any other value. */
  lemma ReleaseFacts(whole: Json, nodes: seq<Node>, at: Stand, cur: nat, n: Node, n': Node) returns (at': Stand)
    requires Standing(whole, nodes, at, Some(cur)) && Resting(at)
    requires cur < at.m && cur < |nodes| && n == nodes[cur] && !HasLinks(n) && Gone(n')
    ensures Standing(whole, nodes[cur := n'], at', n.parent)
    ensures at'.m == cur < at.m && (n.parent.Some? ==> n.parent.value < at'.m)
  {
    var rest := Rest(at.ctx, at.pend);
    BlockFacts(whole, nodes, at, cur, n);
    LastNode(whole, nodes, at.m, at.ctx, at.pend, cur, rest);
    at' := Stand(cur, Leave(rest), None);
    Drop(whole, nodes, cur, rest, at'.ctx, n');
    ValueNode(whole, nodes[cur := n'], cur, at'.ctx, None, n.parent);
  }

  lemma BlockFacts(whole: Json, nodes: seq<Node>, at: Stand, cur: nat, n: Node)
    requires Standing(whole, nodes, at, Some(cur)) && Resting(at)
    requires cur < at.m && cur < |nodes| && n == nodes[cur] && !HasLinks(n)
    ensures !n.block.Released?
    ensures n.kind != KArray && n.kind != KObject && n.kind != KString ==> n.block.NoBlock?
    ensures at.pend.None? ==> !at.ctx.Root? && |at.ctx.items| == 0
    ensures n.parent == Owner(Rest(at.ctx, at.pend))
  {
    ValueNode(whole, nodes, at.m, at.ctx, at.pend, Some(cur));
    if at.pend.None? {
      ContainerNode(whole, at.ctx, n);
    } else {
      LeafHead(at.pend.value, Owner(at.ctx), Count(at.ctx), n);
    }
  }

  /** A container that has links left is followed to its last one. */
  method FollowLink(heap: Heap, cur: nat, ghost whole: Json, ghost at: Stand) returns (value: Option<nat>,
      ghost at': Stand)
    requires Standing(whole, heap.nodes, at, Some(cur)) && Resting(at)
    requires cur < at.m && cur < |heap.nodes| && !heap.nodes[cur].freed && HasLinks(heap.nodes[cur])
    modifies heap`nodes
    ensures |heap.nodes| == old(|heap.nodes|) && Standing(whole, heap.nodes, at', value)
    ensures value.Some? && at'.m == at.m && cur < value.value < at.m
  {
    var n := heap.Get(cur);
    at' := FollowFacts(whole, heap.nodes, at, cur, n, LinkOf(n, n.length - 1));
    heap.nodes := heap.nodes[cur := n.(length := n.length - 1)];
    value := LinkOf(heap.Get(cur), heap.Get(cur).length);
  }

  /** Any other value is released: its block, if its kind has one, and its node. */
  method ReleaseValue(heap: Heap, cur: nat, ghost whole: Json, ghost at: Stand) returns (value: Option<nat>,
      ghost at': Stand)
    requires Standing(whole, heap.nodes, at, Some(cur)) && Resting(at)
    requires cur < at.m && cur < |heap.nodes| && !heap.nodes[cur].freed && !HasLinks(heap.nodes[cur])
    modifies heap`nodes
    ensures |heap.nodes| == old(|heap.nodes|) && Standing(whole, heap.nodes, at', value)
    ensures at'.m == cur < at.m && (value.Some? ==> value.value < at'.m)
  {
    ghost var before := heap.nodes;
    BlockFacts(whole, before, at, cur, before[cur]);
    var kind := heap.Get(cur).kind;
    if kind == KArray || kind == KObject || kind == KString {
      heap.FreeBlock(cur);
    }
    value := heap.Get(cur).parent;
    heap.FreeNode(cur);
    assert heap.nodes == before[cur := heap.nodes[cur]];
    at' := ReleaseFacts(whole, before, at, cur, before[cur], heap.nodes[cur]);
  }

  /** Frees the tree `whole`: every node and every block exactly once, children before their container. */
  method FreeTree(heap: Heap, root: Option<nat>, ghost whole: Json)
    requires WellFormed(whole)
    requires root.Some? ==> root == Some(0) && heap.nodes == Lay(FinalHead, whole, None, 0)
    modifies heap`nodes
    ensures root.None? ==> heap.nodes == old(heap.nodes)
    ensures root.Some? ==> |heap.nodes| == old(|heap.nodes|) && AllReleased(heap.nodes)
  {
    if root.None? {
      return;
    }
    var value: Option<nat> := root;
    ghost var at := Stand(|heap.nodes|, Root, Some(whole));
    heap.nodes := heap.nodes[0 := heap.nodes[0].(parent := None)];
    assert heap.nodes == Lay(FinalHead, whole, None, 0);
    assert heap.nodes[..at.m] == Open(StyleOf(Releasing(whole)), Root) + Lay(FinalHead, whole, None, 0);
    at := Settle(whole, heap.nodes, at, value);
    while value.Some?
      invariant |heap.nodes| == old(|heap.nodes|)
      invariant Standing(whole, heap.nodes, at, value) && Resting(at)
      invariant value.Some? ==> value.value < at.m && !heap.nodes[value.value].freed
      invariant value.None? ==> at.m == 0
      decreases at.m, at.m - (if value.Some? then value.value else 0)
    {
      if HasLinks(heap.Get(value.value)) {
        value, at := FollowLink(heap, value.value, whole, at);
      } else {
        value, at := ReleaseValue(heap, value.value, whole, at);
      }
      at := Settle(whole, heap.nodes, at, value);
    }
  }

  /** Parsing and then freeing gives back everything that was allocated, in every run that is not stopped by a
      request in its second pass. */
  method ParseThenFree(settings: Options, text: bytes) returns (heap: Heap, overrun: bool)
    ensures fresh(heap)
    ensures match ParseText(text, settings.comments)
            case None => overrun || AllReleased(heap.nodes)
            case Some(v) =>
              && (overrun <==> TreeOverruns(settings, v))
              && (!overrun && (Affordable(settings, v) || !NodesAffordable(settings, v)) ==> AllReleased(heap.nodes))
  {
    ghost var v, granted := ParseText(text, settings.comments), 0;
    if v.Some? {
      ParsedWellFormed(text, settings.comments);
      OverrunsExactly(settings, v.value);
    }
    var root;
    heap, root, overrun, granted := Parser.ParseEx(settings, text);
    if root.Some? {
      FreeTree(heap, root, v.value);
    }
  }
}
