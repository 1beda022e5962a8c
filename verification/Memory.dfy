/** The memory that holds the nodes of parsed trees. */
module Memory {
  import opened Bytes
  import opened Layout

  /** Every node has been freed, and every block that was allocated. */
  ghost predicate AllReleased(nodes: seq<Node>) {
    forall k | 0 <= k < |nodes| :: nodes[k].freed && (nodes[k].block.NoBlock? || nodes[k].block.Released?)
  }

  /** The blocks of a node as freeing leaves them; freeing a null pointer does nothing. */
  function Release(b: Block): Block {
    if b.NoBlock? then b else Released
  }

  /** The links of a chain of `n` nodes in the order of their creation. */
  function Chain(n: nat): (r: seq<Option<nat>>)
    ensures |r| == n
  {
    seq(n, (k: nat) => if k + 1 < n then Some(k + 1) else None)
  }

  /** A chain grows at its end. */
  lemma ChainGrows(n: nat)
    ensures Chain(n + 1) == (if n == 0 then [] else Chain(n)[n - 1 := Some(n)]) + [None]
  {
  }

  /** An arena of nodes in the order of their creation; pointers to nodes are indices.  `next` are their
      next_alloc links. */
  class Heap {
    var nodes: seq<Node>
    var next: seq<Option<nat>>

    constructor ()
      ensures nodes == [] && next == []
    {
      nodes, next := [], [];
    }

    /** A node is made; the one made before it, if any, is linked to it. */
    method Append(n: Node, previous: Option<nat>)
      requires previous.Some? ==> previous.value < |next|
      modifies this
      ensures nodes == old(nodes) + [n]
      ensures next == (if previous.Some? then old(next)[previous.value := Some(|old(nodes)|)] else old(next)) + [None]
    {
      if previous.Some? {
        next := next[previous.value := Some(|nodes|)];
      }
      nodes, next := nodes + [n], next + [None];
    }

    /** Reads a node, which must still be there. */
    function Get(k: nat): Node
      requires k < |nodes| && !nodes[k].freed
      reads this
    {
      nodes[k]
    }

    /** mem_free of a node: only a node that has not been freed yet may be freed. */
    method FreeNode(k: nat)
      requires k < |nodes| && !nodes[k].freed
      modifies this`nodes
      ensures nodes == old(nodes)[k := old(nodes[k]).(freed := true)]
    {
      nodes := nodes[k := nodes[k].(freed := true)];
    }

    /** mem_free of the block of a node that is still there. */
    method FreeBlock(k: nat)
      requires k < |nodes| && !nodes[k].freed && !nodes[k].block.Released?
      modifies this`nodes
      ensures nodes == old(nodes)[k := old(nodes[k]).(block := Release(old(nodes[k].block)))]
    {
      nodes := nodes[k := nodes[k].(block := Release(nodes[k].block))];
    }
  }
}
