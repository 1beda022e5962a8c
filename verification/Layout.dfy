/** The nodes of the arena and the contents of the blocks they own. */
module Layout {
  import opened Bytes
  import opened Grammar
  import opened Preorder

  datatype Kind = KNull | KObject | KArray | KInteger | KDouble | KString | KBoolean

  /** One name/value slot of an object: an offset into the name area and a node. */
  datatype Entry = Entry(name: Option<nat>, value: Option<nat>)

  /** The block a node owns.  A cell is None until it is written. */
  datatype Block =
    | NoBlock
    | Text(chars: seq<Option<byte>>)
    | Items(refs: seq<Option<nat>>)
    | Entries(slots: seq<Entry>, area: seq<Option<byte>>)
    | Released

  /** A node.  `length` is the length field that strings, arrays and objects share; `nameBytes`
      is the `entries` pointer while the first pass uses it as a counter; `nextName` is the
      offset of `object_mem` in the name area. */
  datatype Node = Node(
    kind: Kind,
    parent: Option<nat>,
    flag: bool,
    integer: int,
    length: nat,
    nameBytes: nat,
    block: Block,
    nextName: nat,
    freed: bool)

  /** A node as the zeroing allocator and `new_value` leave it. */
  function NewNode(kind: Kind, parent: Option<nat>): Node {
    Node(kind, parent, false, 0, 0, 0, NoBlock, 0, false)
  }

  function Cells(t: bytes): (r: seq<Option<byte>>)
    ensures |r| == |t|
  {
    seq(|t|, i requires 0 <= i < |t| => Some(t[i]))
  }

  function Blank<T>(n: nat): (r: seq<Option<T>>)
    ensures |r| == n
  {
    seq(n, _ => None)
  }

  function BlankEntries(n: nat): (r: seq<Entry>)
    ensures |r| == n
  {
    seq(n, _ => Entry(None, None))
  }

  /** The bytes a list of names takes, each with its terminating NUL. */
  function NameBytes(names: seq<bytes>): nat {
    if |names| == 0 then 0 else NameBytes(names[..|names| - 1]) + |names[|names| - 1]| + 1
  }

  /** The name area: every name followed by a NUL. */
  function NameArea(names: seq<bytes>): (r: seq<Option<byte>>)
    ensures |r| == NameBytes(names)
  {
    if |names| == 0 then []
    else NameArea(names[..|names| - 1]) + Cells(names[|names| - 1]) + [Some(NUL)]
  }

  /** Item references when the first item is node `base`. */
  function Refs(items: seq<Json>, base: nat): (r: seq<Option<nat>>)
    ensures |r| == |items|
  {
    if |items| == 0 then []
    else Refs(items[..|items| - 1], base) + [Some(base + SizeAll(items[..|items| - 1]))]
  }

  /** Entries of an object whose last name may still wait for its value. */
  function Slots(names: seq<bytes>, items: seq<Json>, base: nat): (r: seq<Entry>)
    ensures |r| == |names|
  {
    if |names| == 0 then []
    else
      var n := |names| - 1;
      var rest := if |items| > n then items[..n] else items;
      Slots(names[..n], rest, base)
      + [Entry(Some(NameBytes(names[..n])), if |items| > n then Some(base + SizeAll(rest)) else None)]
  }

  // ----- one more item or name -----

  lemma {:induction false} AppendRef(items: seq<Json>, v: Json, base: nat)
    ensures Refs(items + [v], base) == Refs(items, base) + [Some(base + SizeAll(items))]
  {
    assert (items + [v])[..|items|] == items;
  }

  lemma {:induction false} AppendName(names: seq<bytes>, t: bytes, items: seq<Json>, base: nat)
    requires |items| == |names|
    ensures NameBytes(names + [t]) == NameBytes(names) + |t| + 1
    ensures NameArea(names + [t]) == NameArea(names) + Cells(t) + [Some(NUL)]
    ensures Slots(names + [t], items, base) == Slots(names, items, base) + [Entry(Some(NameBytes(names)), None)]
  {
    assert (names + [t])[..|names|] == names;
  }

  lemma {:induction false} FillSlot(names: seq<bytes>, items: seq<Json>, v: Json, base: nat)
    requires |names| == |items| + 1
    ensures Slots(names, items + [v], base)
            == Slots(names, items, base)[|items| := Slots(names, items,
                base)[|items|].(value := Some(base + SizeAll(items)))]
  {
    assert (items + [v])[..|items|] == items;
  }

  lemma {:induction false} NamePrefix(names: seq<bytes>, k: nat)
    requires k <= |names|
    ensures NameBytes(names[..k]) <= NameBytes(names)
    decreases |names|
  {
    if k < |names| {
      NamePrefix(names[..|names| - 1], k);
      assert names[..|names| - 1][..k] == names[..k];
    } else {
      assert names[..k] == names;
    }
  }

  /** A prefix of the names leaves room for the names that follow. */
  lemma {:induction false} NameRoom(names: seq<bytes>, t: bytes, full: seq<bytes>)
    requires names + [t] <= full
    ensures NameBytes(names) + |t| + 1 <= NameBytes(full)
    ensures NameBytes(names) <= NameBytes(full)
  {
    NamePrefix(full, |names| + 1);
    assert full[..|names| + 1] == names + [t];
    assert (names + [t])[..|names|] == names;
  }
}
