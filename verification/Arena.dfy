/** The part of the arena that belongs to the open containers and what they have finished. */
module Arena {
  import opened Bytes
  import opened Grammar
  import opened Preorder
  import opened Context

  /** What is recorded for complete values and for open containers. */
  datatype Style<!N> = Style(head: Heading<N>, frame: Ctx -> N)

  /** The number of nodes in and under the open containers. */
  function Count(ctx: Ctx): nat {
    match ctx
    case Root => 0
    case InArray(items, outer) => Count(outer) + 1 + SizeAll(items)
    case InObject(_, items, outer) => Count(outer) + 1 + SizeAll(items)
  }

  /** The innermost open container. */
  function Owner(ctx: Ctx): Option<nat> {
    if ctx.Root? then None else Some(Count(ctx.outer))
  }

  /** The nodes in and under the open containers. */
  function Open<N>(st: Style<N>, ctx: Ctx): (r: seq<N>)
    ensures |r| == Count(ctx)
    decreases ctx
  {
    match ctx
    case Root => []
    case InArray(items, outer) =>
      Open(st, outer) + [st.frame(ctx)] + LayAll(st.head, items, Count(outer), Count(outer) + 1)
    case InObject(_, items, outer) =>
      Open(st, outer) + [st.frame(ctx)] + LayAll(st.head, items, Count(outer), Count(outer) + 1)
  }

  /** The same with `n` as the node of the innermost container. */
  function OpenAs<N>(st: Style<N>, ctx: Ctx, n: N): (r: seq<N>)
    requires !ctx.Root?
    ensures |r| == Count(ctx)
  {
    Open(st, ctx.outer) + [n] + LayAll(st.head, ctx.items, Count(ctx.outer), Count(ctx.outer) + 1)
  }

  lemma {:induction false} OpenIsOpenAs<N>(st: Style<N>, ctx: Ctx)
    requires !ctx.Root?
    ensures Open(st, ctx) == OpenAs(st, ctx, st.frame(ctx))
  {
  }

  lemma UpdateOwner<N>(st: Style<N>, ctx: Ctx, n: N, m: N, nodes: seq<N>)
    requires !ctx.Root? && nodes == OpenAs(st, ctx, n)
    ensures Count(ctx.outer) < |nodes| && nodes[Count(ctx.outer)] == n
    ensures nodes[Count(ctx.outer) := m] == OpenAs(st, ctx, m)
  {
  }

  /** A container that holds nothing yet is one more node. */
  lemma {:induction false} OpenContainer<N>(st: Style<N>, ctx: Ctx, n: N)
    requires !ctx.Root? && ctx.items == []
    ensures OpenAs(st, ctx, n) == Open(st, ctx.outer) + [n]
    ensures Count(ctx) == Count(ctx.outer) + 1
  {
  }

  /** The context in which the innermost container has one more item. */
  function Grow(ctx: Ctx, v: Json): Ctx
    requires !ctx.Root?
  {
    match ctx
    case InArray(items, outer) => InArray(items + [v], outer)
    case InObject(names, items, outer) => InObject(names, items + [v], outer)
  }

  lemma Regroup<N>(a: seq<N>, n: N, b: seq<N>, c: seq<N>, bc: seq<N>, nodes: seq<N>)
    requires nodes == a + [n] + b + c && bc == b + c
    ensures nodes == a + [n] + bc
  {
  }

  /** A finished value becomes the next item of the innermost container. */
  lemma {:induction false} AppendValue<N>(st: Style<N>, ctx: Ctx, n: N, v: Json, ctx': Ctx, nodes: seq<N>)
    requires !ctx.Root? && ctx' == Grow(ctx, v)
    requires nodes == OpenAs(st, ctx, n) + Lay(st.head, v, Owner(ctx), Count(ctx))
    ensures nodes == OpenAs(st, ctx', n)
    ensures Count(ctx') == Count(ctx) + Size(v)
  {
    var items, at := ctx.items, Count(ctx.outer);
    AppendSize(items, v);
    AppendLay(st.head, items, v, at, at + 1, Owner(ctx), Count(ctx));
    var c := Lay(st.head, v, Owner(ctx), Count(ctx));
    var b := LayAll(st.head, items, at, at + 1);
    assert OpenAs(st, ctx, n) == Open(st, ctx.outer) + [n] + b;
    Regroup(Open(st, ctx.outer), n, b, c, LayAll(st.head, items + [v], at, at + 1), nodes);
    assert ctx'.outer == ctx.outer && ctx'.items == items + [v];
  }

  /** A closed container is the complete value that its node and items form. */
  lemma {:induction false} CloseContainer<N>(st: Style<N>, ctx: Ctx, n: N, v: Json)
    requires !ctx.Root? && (v.JArray? || v.JObject?) && v.items == ctx.items
    requires n == st.head(v, Owner(ctx.outer), Count(ctx.outer))
    ensures OpenAs(st, ctx, n) == Open(st, ctx.outer) + Lay(st.head, v, Owner(ctx.outer), Count(ctx.outer))
  {
  }
}
