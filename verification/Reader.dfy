/** What a caller finds in the arena of a successful parse. */
module Reader {
  import opened Bytes
  import opened Grammar
  import opened Preorder
  import opened Layout
  import opened Styles
  import Writer

  /** What was read, and the nodes that were visited for it, in order. */
  datatype Seen<T> = Seen(value: T, visited: seq<nat>)

  // ----- reading the tree through its pointers -----

  /** A C string: the bytes up to the first NUL. */
  function Terminated(cells: seq<Option<byte>>, i: nat): Option<bytes>
    decreases |cells| - i
  {
    if i >= |cells| || cells[i].None? then None
    else if cells[i].value == NUL then Some([])
    else
      var rest := Terminated(cells, i + 1);
      if rest.None? then None else Some([cells[i].value] + rest.value)
  }

  /** The first `n` cells, all of them written. */
  function Prefix(cells: seq<Option<byte>>, n: nat): Option<bytes> {
    if n > |cells| then None
    else if forall k | 0 <= k < n :: cells[k].Some? then Some(seq(n, k requires 0 <= k < n => cells[k].value))
    else None
  }

  /** The node that link `j` of a container leads to. */
  function LinkOf(n: Node, j: nat): Option<nat> {
    match n.block
    case Items(refs) => if j < |refs| then refs[j] else None
    case Entries(slots, _) => if j < |slots| then slots[j].value else None
    case _ => None
  }

  function NameOf(n: Node, j: nat): Option<bytes> {
    match n.block
    case Entries(slots, area) =>
      if j < |slots| && slots[j].name.Some? then Terminated(area, slots[j].name.value) else None
    case _ => None
  }

  function ReadNames(n: Node, count: nat): Option<seq<bytes>> {
    if count == 0 then Some([])
    else
      var rest := ReadNames(n, count - 1);
      var name := NameOf(n, count - 1);
      if rest.None? || name.None? then None else Some(rest.value + [name.value])
  }

  /** The value at node `k`, read through kinds, lengths, blocks and links.  A link must lead to a later
      node whose parent pointer leads back. */
  function ReadNode(nodes: seq<Node>, k: nat): Option<Seen<Json>>
    decreases |nodes| - k, 1, 0
  {
    if k >= |nodes| then None
    else
      var n := nodes[k];
      match n.kind
      case KNull => Some(Seen(JNull, [k]))
      case KBoolean => Some(Seen(JBool(n.flag), [k]))
      case KInteger => Some(Seen(JInteger(n.integer), [k]))
      case KDouble => Some(Seen(JDouble, [k]))
      case KString =>
        if !n.block.Text? || Prefix(n.block.chars, n.length).None? then None
        else Some(Seen(JString(Prefix(n.block.chars, n.length).value), [k]))
      case KArray =>
        var r := ReadLinks(nodes, k, n.length);
        if r.None? then None else Some(Seen(JArray(r.value.value), [k] + r.value.visited))
      case KObject =>
        var r := ReadLinks(nodes, k, n.length);
        var names := ReadNames(n, n.length);
        if r.None? || names.None? then None else Some(Seen(JObject(names.value, r.value.value), [k] + r.value.visited))
  }

  function ReadLinks(nodes: seq<Node>, k: nat, count: nat): Option<Seen<seq<Json>>>
    requires k < |nodes|
    decreases |nodes| - k, 0, count
  {
    if count == 0 then Some(Seen([], []))
    else
      var rest := ReadLinks(nodes, k, count - 1);
      var c := LinkOf(nodes[k], count - 1);
      if rest.None? || c.None? || !(k < c.value < |nodes|) || nodes[c.value].parent != Some(k) then None
      else
        var v := ReadNode(nodes, c.value);
        if v.None? then None
        else Some(Seen(rest.value.value + [v.value.value], rest.value.visited + v.value.visited))
  }

  // ----- names end at their first NUL -----

  function CutAtNul(t: bytes): bytes {
    if |t| == 0 || t[0] == NUL then [] else [t[0]] + CutAtNul(t[1..])
  }

  function CutNames(names: seq<bytes>): (r: seq<bytes>)
    ensures |r| == |names|
  {
    if |names| == 0 then [] else CutNames(names[..|names| - 1]) + [CutAtNul(names[|names| - 1])]
  }

  /** The tree as a reader of C strings sees it: no length is stored for a name. */
  function Cut(v: Json): Json
    decreases v, 0
  {
    match v
    case JArray(items) => JArray(CutAll(items))
    case JObject(names, items) => JObject(CutNames(names), CutAll(items))
    case _ => v
  }

  function CutAll(items: seq<Json>): (r: seq<Json>)
    ensures |r| == |items|
    decreases items, 0
  {
    if |items| == 0 then [] else CutAll(items[..|items| - 1]) + [Cut(items[|items| - 1])]
  }

  predicate CleanNames(names: seq<bytes>) {
    forall k | 0 <= k < |names| :: NUL !in names[k]
  }

  /** No name in the tree contains a NUL. */
  predicate Clean(v: Json)
    decreases v, 0
  {
    match v
    case JArray(items) => CleanAll(items)
    case JObject(names, items) => CleanNames(names) && CleanAll(items)
    case _ => true
  }

  predicate CleanAll(items: seq<Json>)
    decreases items, 0
  {
    |items| == 0 || (CleanAll(items[..|items| - 1]) && Clean(items[|items| - 1]))
  }

  /** A C string ends before its first NUL. */
  lemma {:induction false} CutAtNulSame(t: bytes)
    ensures CutAtNul(t) == t <==> NUL !in t
    ensures CutAtNul(t) <= t && 0x00 !in CutAtNul(t) && (|CutAtNul(t)| < |t| ==> t[|CutAtNul(t)|] == 0x00)
  {
    if |t| > 0 && t[0] != NUL {
      CutAtNulSame(t[1..]);
      assert t == [t[0]] + t[1..];
    }
  }

  lemma {:induction false} CutNamesSame(names: seq<bytes>)
    ensures CutNames(names) == names <==> CleanNames(names)
  {
    if |names| > 0 {
      var n := |names| - 1;
      CutNamesSame(names[..n]);
      CutAtNulSame(names[n]);
      assert names == names[..n] + [names[n]];
    }
  }

  /** The reader sees the parsed tree itself exactly when no name contains a NUL. */
  lemma {:induction false} CutSame(v: Json)
    ensures Cut(v) == v <==> Clean(v)
    decreases v, 0
  {
    match v
    case JArray(items) => CutAllSame(items);
    case JObject(names, items) =>
      CutNamesSame(names);
      CutAllSame(items);
    case _ =>
  }

  lemma {:induction false} CutAllSame(items: seq<Json>)
    ensures CutAll(items) == items <==> CleanAll(items)
    decreases items, 0
  {
    if |items| > 0 {
      var n := |items| - 1;
      CutAllSame(items[..n]);
      CutSame(items[n]);
      assert items == items[..n] + [items[n]];
    }
  }

  /** A text whose tree is read differently: its object's one name is a NUL. */
  lemma CutDiffers() returns (t: bytes, v: Json)
    ensures ParseText(t, false) == Some(v) && Cut(v) != v
  {
    v := JObject([[NUL]], [JNull]);
    t := Writer.Write(v);
    Writer.WriteParses(v, false);
    assert !Clean(v);
    CutSame(v);
  }

  // ----- the arena of a parsed tree -----

  function Range(a: nat, b: nat): seq<nat>
    requires a <= b
  {
    seq(b - a, i requires 0 <= i => a + i)
  }

  lemma Ranges(a: nat, b: nat, c: nat)
    requires a <= b <= c
    ensures Range(a, b) + Range(b, c) == Range(a, c)
  {
  }

  lemma {:induction false} TerminatedAt(cells: seq<Option<byte>>, i: nat, t: bytes)
    requires i + |t| < |cells| && cells[i + |t|] == Some(NUL)
    requires forall k | 0 <= k < |t| :: cells[i + k] == Some(t[k])
    ensures Terminated(cells, i) == Some(CutAtNul(t))
    decreases |t|
  {
    if |t| > 0 {
      assert cells[i + 0] == Some(t[0]);
      forall k | 0 <= k < |t| - 1 ensures cells[i + 1 + k] == Some(t[1..][k]) {
        assert cells[i + (k + 1)] == Some(t[k + 1]);
      }
      TerminatedAt(cells, i + 1, t[1..]);
    }
  }

  lemma {:induction false} NameCellAt(names: seq<bytes>, j: nat)
    requires j < |names|
    ensures var i := NameBytes(names[..j]);
      && i + |names[j]| < NameBytes(names)
      && NameArea(names)[i + |names[j]|] == Some(NUL)
      && forall k | 0 <= k < |names[j]| :: NameArea(names)[i + k] == Some(names[j][k])
    decreases |names|
  {
    var n := |names| - 1;
    if j < n {
      NameCellAt(names[..n], j);
      assert names[..n][..j] == names[..j];
    } else {
      assert names[..j] == names[..n];
    }
  }

  lemma {:induction false} SlotAt(names: seq<bytes>, items: seq<Json>, k: nat, base: nat)
    requires k < |items| == |names|
    ensures Slots(names, items, base)[k] == Entry(Some(NameBytes(names[..k])), Some(base + SizeAll(items[..k])))
  {
    var n := |names| - 1;
    if k < n {
      SlotAt(names[..n], items[..n], k, base);
      assert items[..n][..k] == items[..k] && names[..n][..k] == names[..k];
    }
  }

  lemma {:induction false} RefAt(items: seq<Json>, k: nat, base: nat)
    requires k < |items|
    ensures Refs(items, base)[k] == Some(base + SizeAll(items[..k]))
  {
    if k < |items| - 1 {
      RefAt(items[..|items| - 1], k, base);
      assert items[..|items| - 1][..k] == items[..k];
    }
  }

  lemma {:induction false} NamesRead(names: seq<bytes>, items: seq<Json>, n: Node, base: nat, count: nat)
    requires count <= |names| == |items|
    requires n.block == Entries(Slots(names, items, base), NameArea(names))
    ensures ReadNames(n, count) == Some(CutNames(names[..count]))
  {
    if count > 0 {
      var j := count - 1;
      NamesRead(names, items, n, base, j);
      SlotAt(names, items, j, base);
      NameCellAt(names, j);
      TerminatedAt(NameArea(names), NameBytes(names[..j]), names[j]);
      assert names[..count][..j] == names[..j];
    }
  }

  lemma LinkAt(c: Json, parent: Option<nat>, at: nat, j: nat)
    requires (c.JArray? || (c.JObject? && |c.names| == |c.items|)) && j < |c.items|
    ensures LinkOf(FinalHead(c, parent, at), j) == Some(at + 1 + SizeAll(c.items[..j]))
  {
    if c.JArray? {
      RefAt(c.items, j, at + 1);
    } else {
      SlotAt(c.names, c.items, j, at + 1);
    }
  }

  /** Where the nodes of item `j` of a container are. */
  lemma {:induction false} ItemNodes(nodes: seq<Node>, c: Json, parent: Option<nat>, at: nat, whole: seq<Node>,
      j: nat, pos: nat, part: seq<Node>)
    requires (c.JArray? || (c.JObject? && |c.names| == |c.items|)) && j < |c.items|
    requires whole == Lay(FinalHead, c, parent, at) && Within(whole, nodes, at)
    requires pos == at + 1 + SizeAll(c.items[..j])
    requires part == Lay(FinalHead, c.items[j], Some(at), pos)
    ensures at < pos < |nodes| && Within(part, nodes, pos)
    ensures LinkOf(nodes[at], j) == Some(pos) && nodes[pos].parent == Some(at)
  {
    assert nodes[at] == nodes[at..at + |whole|][0] == whole[0];
    LinkAt(c, parent, at, j);
    ChildWithin(FinalHead, c, j, parent, at, pos, pos - at, part, whole);
    WithinWithin(part, whole, nodes, pos - at, at, pos);
    assert nodes[pos] == nodes[pos..pos + |part|][0] == part[0];
  }

  /** One more link. */
  lemma OneMoreLink(nodes: seq<Node>, at: nat, j: nat, count: nat, items: seq<Json>, pos: nat, end: nat)
    requires count == j + 1 && at < pos < |nodes| && j < |items|
    requires LinkOf(nodes[at], j) == Some(pos) && nodes[pos].parent == Some(at)
    requires pos == at + 1 + SizeAll(items[..j]) && end == pos + Size(items[j])
    requires ReadLinks(nodes, at, j) == Some(Seen(CutAll(items[..j]), Range(at + 1, pos)))
    requires ReadNode(nodes, pos) == Some(Seen(Cut(items[j]), Range(pos, end)))
    ensures ReadLinks(nodes, at, count) == Some(Seen(CutAll(items[..count]), Range(at + 1, end)))
  {
    assert items[..count][..j] == items[..j];
    Ranges(at + 1, pos, end);
  }

  lemma SizeStep(items: seq<Json>, count: nat, j: nat)
    requires count == j + 1 <= |items|
    ensures SizeAll(items[..count]) == SizeAll(items[..j]) + Size(items[j])
  {
    assert items[..count][..j] == items[..j];
  }

  lemma {:induction false} NoLinks(nodes: seq<Node>, c: Json, parent: Option<nat>, at: nat, whole: seq<Node>, end: nat)
    requires whole == Lay(FinalHead, c, parent, at) && Within(whole, nodes, at)
    requires (c.JArray? || c.JObject?) && end == at + 1 + SizeAll(c.items[..0])
    ensures at < |nodes|
    ensures ReadLinks(nodes, at, 0) == Some(Seen(CutAll(c.items[..0]), Range(at + 1, end)))
  {
    assert Range(at + 1, end) == [];
  }

  /** The first `count` links of a container lead to its first items, each with all its nodes. */
  lemma {:induction false} LinksRead(
    nodes: seq<Node>, c: Json, parent: Option<nat>, at: nat, whole: seq<Node>, count: nat, end: nat)
    requires (c.JArray? || c.JObject?) && WellFormed(c) && count <= |c.items|
    requires whole == Lay(FinalHead, c, parent, at) && Within(whole, nodes, at)
    requires end == at + 1 + SizeAll(c.items[..count])
    ensures at < |nodes|
    ensures ReadLinks(nodes, at, count) == Some(Seen(CutAll(c.items[..count]), Range(at + 1, end)))
    decreases c, 0, count
  {
    if count > 0 {
      var j := count - 1;
      var pos := at + 1 + SizeAll(c.items[..j]);
      var part := Lay(FinalHead, c.items[j], Some(at), pos);
      ItemNodes(nodes, c, parent, at, whole, j, pos, part);
      SizeStep(c.items, count, j);
      LinksRead(nodes, c, parent, at, whole, j, pos);
      ReadsBack(nodes, c.items[j], Some(at), pos, part, end);
      OneMoreLink(nodes, at, j, count, c.items, pos, end);
    } else {
      NoLinks(nodes, c, parent, at, whole, end);
    }
  }

  /** The links of an array. */
  lemma {:induction false} ArrayRead(nodes: seq<Node>, v: Json, parent: Option<nat>, at: nat, end: nat)
    requires v.JArray? && at < |nodes| && nodes[at] == FinalHead(v, parent, at) && end == at + Size(v)
    requires ReadLinks(nodes, at, |v.items|) == Some(Seen(CutAll(v.items), Range(at + 1, end)))
    ensures ReadNode(nodes, at) == Some(Seen(Cut(v), Range(at, end)))
  {
    Ranges(at, at + 1, end);
    assert [at] == Range(at, at + 1);
  }

  /** The links and names of an object. */
  lemma {:induction false} ObjectRead(nodes: seq<Node>, v: Json, parent: Option<nat>, at: nat, end: nat)
    requires v.JObject? && |v.names| == |v.items|
    requires at < |nodes| && nodes[at] == FinalHead(v, parent, at) && end == at + Size(v)
    requires ReadLinks(nodes, at, |v.items|) == Some(Seen(CutAll(v.items), Range(at + 1, end)))
    ensures ReadNode(nodes, at) == Some(Seen(Cut(v), Range(at, end)))
  {
    Ranges(at, at + 1, end);
    assert [at] == Range(at, at + 1);
    if |v.items| > 0 {
      NamesRead(v.names, v.items, nodes[at], at + 1, |v.names|);
    }
    assert v.names[..|v.names|] == v.names;
  }

  lemma {:induction false} LeafRead(nodes: seq<Node>, v: Json, parent: Option<nat>, at: nat)
    requires !v.JArray? && !v.JObject?
    requires at < |nodes| && nodes[at] == FinalHead(v, parent, at)
    ensures ReadNode(nodes, at) == Some(Seen(Cut(v), Range(at, at + 1)))
  {
    assert [at] == Range(at, at + 1);
    if v.JString? {
      assert forall k | 0 <= k < |v.s| :: nodes[at].block.chars[k] == Cells(v.s)[k];
      assert Prefix(nodes[at].block.chars, |v.s|).value == v.s;
    }
  }

  /** Reading at a node gives the value laid out there, and visits each of its nodes once, in order. */
  lemma {:induction false} ReadsBack(nodes: seq<Node>, v: Json, parent: Option<nat>, at: nat, part: seq<Node>, end: nat)
    requires WellFormed(v) && end == at + Size(v)
    requires part == Lay(FinalHead, v, parent, at) && Within(part, nodes, at)
    ensures ReadNode(nodes, at) == Some(Seen(Cut(v), Range(at, end)))
    decreases v, 1, 0
  {
    assert nodes[at] == nodes[at..at + |part|][0] == part[0];
    if v.JArray? || v.JObject? {
      assert v.items[..|v.items|] == v.items;
      LinksRead(nodes, v, parent, at, part, |v.items|, end);
      if v.JArray? {
        ArrayRead(nodes, v, parent, at, end);
      } else {
        ObjectRead(nodes, v, parent, at, end);
      }
    } else {
      LeafRead(nodes, v, parent, at);
    }
  }

  /** The arena of a successful parse holds the parsed tree: read from the root it is that tree, with every
      name cut at its first NUL, and every node of the arena is reached exactly once, in creation order. */
  lemma {:induction false} TreeReadsBack(nodes: seq<Node>, v: Json)
    requires WellFormed(v) && nodes == Lay(FinalHead, v, None, 0)
    ensures ReadNode(nodes, 0) == Some(Seen(Cut(v), Range(0, |nodes|)))
  {
    assert nodes[0..0 + |nodes|] == nodes;
    ReadsBack(nodes, v, None, 0, nodes, |nodes|);
  }

  // ----- blocks are filled exactly -----

  predicate AllWritten<T>(cells: seq<Option<T>>) {
    forall k | 0 <= k < |cells| :: cells[k].Some?
  }

  /** `last` is what the second pass makes of the node `first`: the same value, and a block of exactly the
      size that the first pass counted, with every cell written. */
  predicate FilledExactly(first: Node, last: Node) {
    && last.kind == first.kind && last.parent == first.parent && last.length == first.length
    && last.flag == first.flag && last.integer == first.integer && !last.freed
    && match first.kind
       case KString => last.block.Text? && |last.block.chars| == first.length + 1 && AllWritten(last.block.chars)
       case KArray =>
         if first.length == 0 then last.block.NoBlock?
         else last.block.Items? && |last.block.refs| == first.length && AllWritten(last.block.refs)
       case KObject =>
         if first.length == 0 then last.block.NoBlock?
         else
           && last.block.Entries? && |last.block.slots| == first.length
           && (forall e | e in last.block.slots :: e.name.Some? && e.value.Some?)
           && |last.block.area| == first.nameBytes && AllWritten(last.block.area)
           && last.nextName == first.nameBytes
       case _ => last.block.NoBlock?
  }

  lemma {:induction false} RefsWritten(items: seq<Json>, base: nat)
    ensures AllWritten(Refs(items, base))
  {
    if |items| > 0 {
      RefsWritten(items[..|items| - 1], base);
    }
  }

  lemma {:induction false} AreaWritten(names: seq<bytes>)
    ensures AllWritten(NameArea(names))
  {
    if |names| > 0 {
      AreaWritten(names[..|names| - 1]);
    }
  }

  lemma HeadFilled(v: Json, parent: Option<nat>, at: nat)
    requires v.JObject? ==> |v.names| == |v.items|
    ensures FilledExactly(FirstHead(v, parent, at), FinalHead(v, parent, at))
  {
    if v.JArray? {
      RefsWritten(v.items, at + 1);
    } else if v.JObject? {
      AreaWritten(v.names);
      var slots := Slots(v.names, v.items, at + 1);
      forall k | 0 <= k < |v.items| ensures slots[k].name.Some? && slots[k].value.Some? {
        SlotAt(v.names, v.items, k, at + 1);
      }
    }
  }

  predicate AllFilled(first: seq<Node>, last: seq<Node>) {
    |first| == |last| && forall k | 0 <= k < |first| :: FilledExactly(first[k], last[k])
  }

  lemma BothFilled(first: seq<Node>, last: seq<Node>, first': seq<Node>, last': seq<Node>)
    requires AllFilled(first, last) && AllFilled(first', last')
    ensures AllFilled(first + first', last + last')
  {
  }

  /** Every node of the skeleton that the first pass leaves is filled exactly by the second. */
  lemma {:induction false} TreeFilled(v: Json, parent: Option<nat>, at: nat)
    requires WellFormed(v)
    ensures AllFilled(Lay(FirstHead, v, parent, at), Lay(FinalHead, v, parent, at))
    decreases v, 0
  {
    HeadFilled(v, parent, at);
    if v.JArray? || v.JObject? {
      ItemsFilled(v.items, at, at + 1);
      BothFilled([FirstHead(v, parent, at)], [FinalHead(v, parent, at)],
                 LayAll(FirstHead, v.items, at, at + 1), LayAll(FinalHead, v.items, at, at + 1));
    }
  }

  predicate AllWellFormed(items: seq<Json>) {
    forall k | 0 <= k < |items| :: WellFormed(items[k])
  }

  lemma {:induction false} LayLast(items: seq<Json>, owner: nat, base: nat, rest: seq<Json>, v: Json, pos: nat)
    requires |items| > 0 && rest == items[..|items| - 1] && v == items[|items| - 1] && pos == base + SizeAll(rest)
    ensures LayAll(FirstHead, items, owner, base) == LayAll(FirstHead, rest, owner, base) + Lay(FirstHead, v,
        Some(owner), pos)
    ensures LayAll(FinalHead, items, owner, base) == LayAll(FinalHead, rest, owner, base) + Lay(FinalHead, v,
        Some(owner), pos)
  {
  }

  lemma {:induction false} ItemsFilled(items: seq<Json>, owner: nat, base: nat)
    requires AllWellFormed(items)
    ensures AllFilled(LayAll(FirstHead, items, owner, base), LayAll(FinalHead, items, owner, base))
    decreases items, 0
  {
    if |items| > 0 {
      var rest, v := items[..|items| - 1], items[|items| - 1];
      var pos := base + SizeAll(rest);
      ItemsFilled(rest, owner, base);
      TreeFilled(v, Some(owner), pos);
      LayLast(items, owner, base, rest, v, pos);
      BothFilled(LayAll(FirstHead, rest, owner, base), LayAll(FinalHead, rest, owner, base),
                 Lay(FirstHead, v, Some(owner), pos), Lay(FinalHead, v, Some(owner), pos));
    }
  }
}
