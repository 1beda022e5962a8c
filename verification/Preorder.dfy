/** Trees laid out in preorder, whatever is recorded for each node. */
module Preorder {
  import opened Bytes
  import opened Grammar

  /** What is recorded for the node of a value, given its parent's index and its own index. */
  type Heading<!N> = (Json, Option<nat>, nat) -> N

  function Size(v: Json): (n: nat)
    ensures n >= 1
    decreases v, 0
  {
    match v
    case JArray(items) => 1 + SizeAll(items)
    case JObject(_, items) => 1 + SizeAll(items)
    case _ => 1
  }

  function SizeAll(items: seq<Json>): nat
    decreases items, 0
  {
    if |items| == 0 then 0 else SizeAll(items[..|items| - 1]) + Size(items[|items| - 1])
  }

  /** All nodes of `v` in creation order, the first one at index `base`. */
  function Lay<N>(head: Heading<N>, v: Json, parent: Option<nat>, base: nat): (r: seq<N>)
    ensures |r| == Size(v)
    decreases v, 0
  {
    match v
    case JArray(items) => [head(v, parent, base)] + LayAll(head, items, base, base + 1)
    case JObject(_, items) => [head(v, parent, base)] + LayAll(head, items, base, base + 1)
    case _ => [head(v, parent, base)]
  }

  /** The nodes of the items of container `owner`, the first one at index `base`. */
  function LayAll<N>(head: Heading<N>, items: seq<Json>, owner: nat, base: nat): (r: seq<N>)
    ensures |r| == SizeAll(items)
    decreases items, 0
  {
    if |items| == 0 then []
    else
      LayAll(head, items[..|items| - 1], owner, base)
      + Lay(head, items[|items| - 1], Some(owner), base + SizeAll(items[..|items| - 1]))
  }

  lemma {:induction false} AppendSize(items: seq<Json>, v: Json)
    ensures SizeAll(items + [v]) == SizeAll(items) + Size(v)
  {
    assert (items + [v])[..|items|] == items;
  }

  /** The nodes of one more item, at `pos`, follow the nodes of the other items. */
  lemma {:induction false} AppendLay<N>(
    head: Heading<N>, items: seq<Json>, v: Json, owner: nat, base: nat, parent: Option<nat>, pos: nat)
    requires parent == Some(owner) && pos == base + SizeAll(items)
    ensures LayAll(head, items + [v], owner, base) == LayAll(head, items, owner, base) + Lay(head, v, parent, pos)
  {
    assert (items + [v])[..|items|] == items;
  }

  // ----- occurrences -----

  /** `part` occurs in `whole` at offset `off`. */
  ghost predicate Within<T>(part: seq<T>, whole: seq<T>, off: nat) {
    off + |part| <= |whole| && whole[off..off + |part|] == part
  }

  lemma WithinLeft<T>(part: seq<T>, a: seq<T>, b: seq<T>, off: nat)
    requires Within(part, a, off)
    ensures Within(part, a + b, off)
  {
  }

  lemma WithinRight<T>(a: seq<T>, b: seq<T>)
    ensures Within(b, a + b, |a|)
  {
  }

  lemma WithinWithin<T>(part: seq<T>, mid: seq<T>, whole: seq<T>, i: nat, j: nat, k: nat)
    requires Within(part, mid, i) && Within(mid, whole, j) && k == i + j
    ensures Within(part, whole, k)
  {
    forall x | 0 <= x < |part| ensures whole[k..k + |part|][x] == part[x] {
      assert part[x] == mid[i..i + |part|][x] == mid[i + x] == whole[j..j + |mid|][i + x];
    }
  }

  lemma {:induction false} SizePrefix(items: seq<Json>, k: nat)
    requires k < |items|
    ensures SizeAll(items[..k]) + Size(items[k]) <= SizeAll(items)
    decreases |items|
  {
    var n := |items| - 1;
    if k < n {
      SizePrefix(items[..n], k);
      assert items[..n][..k] == items[..k];
    }
  }

  /** The nodes of item `k` within the nodes of all items. */
  lemma {:induction false} ItemWithin<N>(
    head: Heading<N>, items: seq<Json>, k: nat, owner: nat, base: nat, part: seq<N>, whole: seq<N>, off: nat)
    requires k < |items|
    requires off == SizeAll(items[..k])
    requires part == Lay(head, items[k], Some(owner), base + off)
    requires whole == LayAll(head, items, owner, base)
    ensures Within(part, whole, off)
    decreases |items|
  {
    var n := |items| - 1;
    var a := LayAll(head, items[..n], owner, base);
    var b := Lay(head, items[n], Some(owner), base + SizeAll(items[..n]));
    assert whole == a + b;
    if k < n {
      assert items[..n][..k] == items[..k];
      ItemWithin(head, items[..n], k, owner, base, part, a, off);
      WithinLeft(part, a, b, off);
    } else {
      WithinRight(a, b);
    }
  }

  /** The nodes of child `k` within the nodes of its container. */
  lemma {:induction false} ChildWithin<N>(
    head: Heading<N>, c: Json, k: nat, parent: Option<nat>, at: nat, pos: nat, off: nat,
    part: seq<N>, whole: seq<N>)
    requires (c.JArray? || c.JObject?) && k < |c.items|
    requires pos == at + 1 + SizeAll(c.items[..k]) && off == pos - at
    requires part == Lay(head, c.items[k], Some(at), pos)
    requires whole == Lay(head, c, parent, at)
    ensures Within(part, whole, off)
  {
    var inner := LayAll(head, c.items, at, at + 1);
    ItemWithin(head, c.items, k, at, at + 1, part, inner, off - 1);
    WithinRight([head(c, parent, at)], inner);
    WithinWithin(part, inner, whole, off - 1, 1, off);
  }
}
