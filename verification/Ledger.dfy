/** The requests that a parse makes to the allocator, in order, and when all of them are granted. */
module Ledger {
  import opened Bytes
  import opened Grammar
  import opened Preorder
  import opened Layout
  import opened Context
  import opened Arena
  import opened Styles
  import opened Progress
  import opened Sizes

  function ChargeHead(o: Options): Heading<Option<Ask>> {
    (v: Json, parent: Option<nat>, at: nat) => Charge(o, FirstHead(v, parent, at))
  }

  /** One request for each node in the first pass. */
  function Fees(o: Options, n: nat): (r: seq<Option<Ask>>)
    ensures |r| == n
  {
    seq(n, _ => Some(NodeAsk(o)))
  }

  /** Everything a run over a text with tree `v` asks for: a node each time the first pass meets a value, then
      a block, or nothing, each time the second pass meets it again. */
  function Bill(o: Options, v: Json): (r: seq<Option<Ask>>)
    ensures |r| == Size(v) + Size(v)
  {
    Fees(o, Size(v)) + Lay(ChargeHead(o), v, None, 0)
  }

  function Amount(c: Option<Ask>): nat {
    if c.Some? then c.value.size else 0
  }

  /** The bytes of the first `t` entries. */
  function Total(bill: seq<Option<Ask>>, t: nat): nat
    requires t <= |bill|
  {
    if t == 0 then 0 else Total(bill, t - 1) + Amount(bill[t - 1])
  }

  /** The requests among the first `t` entries. */
  function Calls(bill: seq<Option<Ask>>, t: nat): nat
    requires t <= |bill|
  {
    if t == 0 then 0 else Calls(bill, t - 1) + (if bill[t - 1].Some? then 1 else 0)
  }

  /** Another request of `size` bytes is within the limits when `spent` bytes have been granted. */
  predicate WithinLimits(o: Options, spent: nat, size: nat) {
    if o.maxMemory > 0 then spent + size <= o.maxMemory && spent + size <= ULONG_LIMIT else size <= ULONG_LIMIT
  }

  /** Such a request is granted when the allocator, called `calls` times before, answers. */
  predicate Answered(o: Options, spent: nat, calls: nat, size: nat) {
    WithinLimits(o, spent, size) && o.host.answers(calls)
  }

  /** Entry `t` is granted after all before it have been. */
  predicate Passes(o: Options, bill: seq<Option<Ask>>, t: nat)
    requires t < |bill|
  {
    bill[t].Some? ==> Answered(o, Total(bill, t), Calls(bill, t), bill[t].value.size)
  }

  /** The first `t` entries are granted. */
  predicate Afforded(o: Options, bill: seq<Option<Ask>>, t: nat)
    requires t <= |bill|
  {
    t == 0 || (Afforded(o, bill, t - 1) && Passes(o, bill, t - 1))
  }

  lemma {:induction false} NotAfforded(o: Options, bill: seq<Option<Ask>>, s: nat, t: nat)
    requires s < t <= |bill| && !Passes(o, bill, s)
    ensures !Afforded(o, bill, t)
    decreases t
  {
    if s < t - 1 {
      NotAfforded(o, bill, s, t - 1);
    }
  }

  lemma {:induction false} AffordedPrefix(o: Options, bill: seq<Option<Ask>>, s: nat, t: nat)
    requires s <= t <= |bill| && Afforded(o, bill, t)
    ensures Afforded(o, bill, s)
    decreases t
  {
    if s < t {
      AffordedPrefix(o, bill, s, t - 1);
    }
  }

  /** Whatever is granted for the entry holds what is written to it. */
  predicate Roomy(entry: Option<Ask>) {
    entry.Some? ==> entry.value.room
  }

  /** Whatever is granted for the first `t` entries holds what is written to it. */
  predicate Holds(bill: seq<Option<Ask>>, t: nat)
    requires t <= |bill|
  {
    forall k | 0 <= k < t :: Roomy(bill[k])
  }

  /** The first entry from `t` on that is refused or granted too little, or the end. */
  function Stop(o: Options, bill: seq<Option<Ask>>, t: nat): (r: nat)
    requires t <= |bill|
    ensures r <= |bill|
    decreases |bill| - t
  {
    if t == |bill| || !Passes(o, bill, t) || !Roomy(bill[t]) then t else Stop(o, bill, t + 1)
  }

  /** A block that is too small is handed out before any request is refused. */
  predicate Overruns(o: Options, bill: seq<Option<Ask>>) {
    var t := Stop(o, bill, 0);
    t < |bill| && Passes(o, bill, t)
  }

  /** The bytes granted until the first refusal or the first block that is too small, or until the end. */
  function Spent(o: Options, bill: seq<Option<Ask>>): nat {
    Total(bill, if Overruns(o, bill) then Stop(o, bill, 0) + 1 else Stop(o, bill, 0))
  }

  lemma {:induction false} StopIs(o: Options, bill: seq<Option<Ask>>, s: nat, t: nat)
    requires s <= t <= |bill| && Afforded(o, bill, t) && Holds(bill, t)
    requires t == |bill| || !Passes(o, bill, t) || !Roomy(bill[t])
    ensures Stop(o, bill, s) == t
    decreases t - s
  {
    if s < t {
      AffordedPrefix(o, bill, s + 1, t);
      StopIs(o, bill, s + 1, t);
    }
  }

  /** When every request is granted, a block is too small exactly if some entry asks for too little; when no
      entry does, none is. */
  lemma {:induction false} OverrunsMeans(o: Options, bill: seq<Option<Ask>>)
    ensures Afforded(o, bill, |bill|) ==> (Overruns(o, bill) <==> !Holds(bill, |bill|))
    ensures Holds(bill, |bill|) ==> !Overruns(o, bill)
  {
    StopBefore(o, bill, 0);
    var t := Stop(o, bill, 0);
    if Afforded(o, bill, |bill|) && t < |bill| {
      AffordedPrefix(o, bill, t + 1, |bill|);
    }
  }

  /** Everything before the stop is granted and has room. */
  lemma {:induction false} StopBefore(o: Options, bill: seq<Option<Ask>>, s: nat)
    requires s <= |bill|
    ensures var t := Stop(o, bill, s);
      s <= t && (forall k | s <= k < t :: Roomy(bill[k])) && (t < |bill| ==> !Passes(o, bill, t) || !Roomy(bill[t]))
    decreases |bill| - s
  {
    if s < |bill| && Passes(o, bill, s) && Roomy(bill[s]) {
      StopBefore(o, bill, s + 1);
    }
  }

  // ----- the entries of the bill -----

  lemma {:induction false} NodeEntry(o: Options, v: Json, k: nat)
    requires k < Size(v)
    ensures Bill(o, v)[k] == Some(NodeAsk(o))
  {
  }

  /** What is recorded for the part at the hole stands at its place in preorder. */
  lemma {:induction false} HeadAt<N>(head: Heading<N>, ctx: Ctx, whole: Json, v: Json, at: nat)
    requires OnTrack(ctx, whole) && Hole(ctx, whole) == Some(v) && at == Count(ctx)
    ensures at < Size(whole) && Lay(head, whole, None, 0)[at] == head(v, Owner(ctx), at)
  {
    var part, all := Lay(head, v, Owner(ctx), at), Lay(head, whole, None, 0);
    PartAt(head, ctx, whole, v, part, all, at);
    assert part[0] == all[at..at + |part|][0] == all[at];
  }

  /** The entry for the value that the second pass meets next. */
  lemma {:induction false} BlockEntry(o: Options, ctx: Ctx, whole: Json, v: Json, at: nat)
    requires OnTrack(ctx, whole) && Hole(ctx, whole) == Some(v) && at == Count(ctx)
    ensures at < Size(whole) && Bill(o, whole)[Size(whole) + at] == Charge(o, FirstHead(v, Owner(ctx), at))
  {
    HeadAt(ChargeHead(o), ctx, whole, v, at);
  }

  // ----- the sums -----

  function Larger(m: nat, n: nat): nat {
    if m < n then n else m
  }

  /** The bytes of all blocks of a tree. */
  function BlockBytes(o: Options, v: Json): nat
    decreases v, 0
  {
    var own := Amount(Charge(o, FirstHead(v, None, 0)));
    match v
    case JArray(items) => own + BlockBytesAll(o, items)
    case JObject(_, items) => own + BlockBytesAll(o, items)
    case _ => own
  }

  function BlockBytesAll(o: Options, items: seq<Json>): nat
    decreases items, 0
  {
    if |items| == 0 then 0 else BlockBytesAll(o, items[..|items| - 1]) + BlockBytes(o, items[|items| - 1])
  }

  /** The bytes of a parsed tree: its nodes and its blocks. */
  function TreeBytes(o: Options, v: Json): nat {
    Size(v) * NodeAsk(o).size + BlockBytes(o, v)
  }

  /** The largest block of a tree. */
  function LargestBlock(o: Options, v: Json): nat
    decreases v, 0
  {
    var own := Amount(Charge(o, FirstHead(v, None, 0)));
    match v
    case JArray(items) => Larger(own, LargestBlockOf(o, items))
    case JObject(_, items) => Larger(own, LargestBlockOf(o, items))
    case _ => own
  }

  function LargestBlockOf(o: Options, items: seq<Json>): nat
    decreases items, 0
  {
    if |items| == 0 then 0
    else Larger(LargestBlockOf(o, items[..|items| - 1]), LargestBlock(o, items[|items| - 1]))
  }

  /** The blocks of a tree. */
  function BlockCount(v: Json): nat
    decreases v, 0
  {
    match v
    case JString(_) => 1
    case JArray(items) => (if |items| > 0 then 1 else 0) + BlockCountAll(items)
    case JObject(_, items) => (if |items| > 0 then 1 else 0) + BlockCountAll(items)
    case _ => 0
  }

  function BlockCountAll(items: seq<Json>): nat
    decreases items, 0
  {
    if |items| == 0 then 0 else BlockCountAll(items[..|items| - 1]) + BlockCount(items[|items| - 1])
  }

  /** Every block requested for the tree holds what is written to it. */
  predicate BlocksRoomy(o: Options, v: Json)
    decreases v, 0
  {
    && Roomy(Charge(o, FirstHead(v, None, 0)))
    && match v
       case JArray(items) => AllBlocksRoomy(o, items)
       case JObject(_, items) => AllBlocksRoomy(o, items)
       case _ => true
  }

  predicate AllBlocksRoomy(o: Options, items: seq<Json>)
    decreases items, 0
  {
    |items| == 0 || (AllBlocksRoomy(o, items[..|items| - 1]) && BlocksRoomy(o, items[|items| - 1]))
  }

  /** Everything requested for the tree holds what is written to it: no size is changed by a conversion. */
  predicate TreeRoomy(o: Options, v: Json) {
    NodeAsk(o).room && BlocksRoomy(o, v)
  }

  /** The memory suffices for the nodes of a tree: the first pass over its text is refused nothing. */
  predicate NodesAffordable(o: Options, v: Json) {
    && WithinLimits(o, (Size(v) - 1) * NodeAsk(o).size, NodeAsk(o).size)
    && forall k: nat | k < Size(v) :: o.host.answers(k)
  }

  /** The memory suffices for a tree: with a limit, its bytes fit the limit and the address arithmetic; with
      none, each single request fits the address arithmetic; and the allocator answers every request. */
  predicate Affordable(o: Options, v: Json) {
    && (if o.maxMemory > 0 then TreeBytes(o, v) <= o.maxMemory && TreeBytes(o, v) <= 0xFFFF_FFF7
        else NodeAsk(o).size <= 0xFFFF_FFF7 && LargestBlock(o, v) <= 0xFFFF_FFF7)
    && forall k: nat | k < Size(v) + BlockCount(v) :: o.host.answers(k)
  }

  /** No entry among the first `t` exceeds the address arithmetic. */
  predicate Small(bill: seq<Option<Ask>>, t: nat)
    requires t <= |bill|
  {
    forall k | 0 <= k < t :: Amount(bill[k]) <= ULONG_LIMIT
  }

  /** What the step-by-step account amounts to. */
  lemma {:induction false} AffordedMeans(o: Options, bill: seq<Option<Ask>>, t: nat)
    requires t <= |bill|
    ensures Afforded(o, bill, t)
            <==> (if o.maxMemory > 0 then Total(bill, t) <= o.maxMemory && Total(bill, t) <= ULONG_LIMIT
                  else Small(bill, t))
                 && forall k: nat | k < Calls(bill, t) :: o.host.answers(k)
    decreases t
  {
    if t > 0 {
      AffordedMeans(o, bill, t - 1);
    }
  }

  lemma {:induction false} Sums(a: seq<Option<Ask>>, b: seq<Option<Ask>>, t: nat)
    requires t <= |b|
    ensures Total(a + b, |a| + t) == Total(a, |a|) + Total(b, t)
    ensures Calls(a + b, |a| + t) == Calls(a, |a|) + Calls(b, t)
    decreases t
  {
    if t == 0 {
      SumsPrefix(a, b, |a|);
    } else {
      Sums(a, b, t - 1);
    }
  }

  lemma {:induction false} SumsPrefix(a: seq<Option<Ask>>, b: seq<Option<Ask>>, t: nat)
    requires t <= |a|
    ensures Total(a + b, t) == Total(a, t) && Calls(a + b, t) == Calls(a, t)
    decreases t
  {
    if t > 0 {
      SumsPrefix(a, b, t - 1);
    }
  }

  /** What is said of a part of the bill as a whole. */
  predicate Account(part: seq<Option<Ask>>, bytes: nat, calls: nat, largest: nat, roomy: bool) {
    && Total(part, |part|) == bytes && Calls(part, |part|) == calls
    && (Small(part, |part|) <==> largest <= ULONG_LIMIT)
    && (Holds(part, |part|) <==> roomy)
  }

  lemma {:induction false} BothSmall(a: seq<Option<Ask>>, b: seq<Option<Ask>>)
    ensures Small(a + b, |a + b|) <==> Small(a, |a|) && Small(b, |b|)
    ensures Holds(a + b, |a + b|) <==> Holds(a, |a|) && Holds(b, |b|)
  {
    forall k | 0 <= k < |a| ensures a[k] == (a + b)[k] {
    }
    forall k | 0 <= k < |b| ensures b[k] == (a + b)[|a| + k] {
    }
  }

  lemma {:induction false} TwoAccounts(
    a: seq<Option<Ask>>, bytes: nat, calls: nat, largest: nat, roomy: bool, b: seq<Option<Ask>>, bytes': nat,
    calls': nat, largest': nat, roomy': bool)
    requires Account(a, bytes, calls, largest, roomy) && Account(b, bytes', calls', largest', roomy')
    ensures Account(a + b, bytes + bytes', calls + calls', Larger(largest, largest'), roomy && roomy')
  {
    Sums(a, b, |b|);
    BothSmall(a, b);
  }

  lemma {:induction false} OneAccount(c: Option<Ask>)
    ensures Account([c], Amount(c), if c.Some? then 1 else 0, Amount(c), Roomy(c))
  {
    assert Total([c], 0) == 0 && Calls([c], 0) == 0;
    assert Total([c], 1) == Amount(c);
    assert Calls([c], 1) == if c.Some? then 1 else 0;
    if Small([c], 1) {
      assert Amount([c][0]) <= ULONG_LIMIT;
    }
    if Holds([c], 1) {
      assert Roomy([c][0]);
    }
  }

  lemma NextTimes(n: nat, size: nat)
    ensures (n + 1) * size == n * size + size
  {
  }

  lemma {:induction false} FeesAccount(o: Options, n: nat)
    ensures Account(Fees(o, n), n * NodeAsk(o).size, n, if n > 0 then NodeAsk(o).size else 0, n > 0 ==> NodeAsk(o).room)
    decreases n
  {
    if n > 0 {
      FeesAccount(o, n - 1);
      OneAccount(Some(NodeAsk(o)));
      TwoAccounts(Fees(o, n - 1), (n - 1) * NodeAsk(o).size, n - 1, if n > 1 then NodeAsk(o).size else 0,
                  n > 1 ==> NodeAsk(o).room, [Some(NodeAsk(o))], NodeAsk(o).size, 1, NodeAsk(o).size, NodeAsk(o).room);
      assert Fees(o, n - 1) + [Some(NodeAsk(o))] == Fees(o, n);
      NextTimes(n - 1, NodeAsk(o).size);
    }
  }

  /** A container's block and the blocks of its items. */
  lemma {:induction false} ContainerAccount(
    o: Options, own: Option<Ask>, items: seq<Json>, rest: seq<Option<Ask>>, all: seq<Option<Ask>>)
    requires Account(rest, BlockBytesAll(o, items), BlockCountAll(items), LargestBlockOf(o, items),
                     AllBlocksRoomy(o, items))
    requires all == [own] + rest
    ensures Account(all, Amount(own) + BlockBytesAll(o, items), (if own.Some? then 1 else 0) + BlockCountAll(items),
                    Larger(Amount(own), LargestBlockOf(o, items)), Roomy(own) && AllBlocksRoomy(o, items))
  {
    OneAccount(own);
    TwoAccounts([own], Amount(own), if own.Some? then 1 else 0, Amount(own), Roomy(own),
                rest, BlockBytesAll(o, items), BlockCountAll(items), LargestBlockOf(o, items),
                AllBlocksRoomy(o, items));
  }

  lemma OwnCharge(o: Options, v: Json, parent: Option<nat>, at: nat)
    ensures Charge(o, FirstHead(v, parent, at)) == Charge(o, FirstHead(v, None, 0))
  {
  }

  lemma {:induction false} BlocksAccount(o: Options, v: Json, parent: Option<nat>, at: nat)
    ensures Account(Lay(ChargeHead(o), v, parent, at), BlockBytes(o, v), BlockCount(v), LargestBlock(o, v),
                    BlocksRoomy(o, v))
    decreases v, 0
  {
    var own, all := Charge(o, FirstHead(v, None, 0)), Lay(ChargeHead(o), v, parent, at);
    OwnCharge(o, v, parent, at);
    if v.JArray? || v.JObject? {
      ItemsAccount(o, v.items, at, at + 1);
      ContainerAccount(o, own, v.items, LayAll(ChargeHead(o), v.items, at, at + 1), all);
      assert BlockBytes(o, v) == Amount(own) + BlockBytesAll(o, v.items);
      assert LargestBlock(o, v) == Larger(Amount(own), LargestBlockOf(o, v.items));
      assert BlocksRoomy(o, v) <==> Roomy(own) && AllBlocksRoomy(o, v.items);
    } else {
      OneAccount(own);
    }
  }

  lemma {:induction false} ItemsAccount(o: Options, items: seq<Json>, owner: nat, base: nat)
    ensures Account(LayAll(ChargeHead(o), items, owner, base), BlockBytesAll(o, items), BlockCountAll(items),
                    LargestBlockOf(o, items), AllBlocksRoomy(o, items))
    decreases items, 0
  {
    if |items| > 0 {
      var rest, v := items[..|items| - 1], items[|items| - 1];
      var pos := base + SizeAll(rest);
      ItemsAccount(o, rest, owner, base);
      BlocksAccount(o, v, Some(owner), pos);
      TwoAccounts(LayAll(ChargeHead(o), rest, owner, base), BlockBytesAll(o, rest), BlockCountAll(rest),
                  LargestBlockOf(o, rest), AllBlocksRoomy(o, rest), Lay(ChargeHead(o), v, Some(owner), pos),
                  BlockBytes(o, v), BlockCount(v), LargestBlock(o, v), BlocksRoomy(o, v));
    }
  }

  /** The whole bill comes to the bytes of the tree, and it is granted exactly when the memory suffices. */
  lemma {:induction false} BillMeans(o: Options, v: Json)
    ensures Total(Bill(o, v), |Bill(o, v)|) == TreeBytes(o, v)
    ensures Afforded(o, Bill(o, v), |Bill(o, v)|) <==> Affordable(o, v)
    ensures Holds(Bill(o, v), |Bill(o, v)|) <==> TreeRoomy(o, v)
  {
    var fees, blocks := Fees(o, Size(v)), Lay(ChargeHead(o), v, None, 0);
    FeesAccount(o, Size(v));
    BlocksAccount(o, v, None, 0);
    TwoAccounts(fees, Size(v) * NodeAsk(o).size, Size(v), NodeAsk(o).size, NodeAsk(o).room,
                blocks, BlockBytes(o, v), BlockCount(v), LargestBlock(o, v), BlocksRoomy(o, v));
    AffordedMeans(o, Bill(o, v), |Bill(o, v)|);
  }

  /** The first half of the bill are the nodes. */
  lemma {:induction false} NodesMean(o: Options, v: Json)
    ensures Afforded(o, Bill(o, v), Size(v)) <==> NodesAffordable(o, v)
    ensures Total(Bill(o, v), Size(v)) == Size(v) * NodeAsk(o).size
  {
    var fees, blocks, n := Fees(o, Size(v)), Lay(ChargeHead(o), v, None, 0), Size(v);
    FeesAccount(o, n);
    SumsPrefix(fees, blocks, n);
    AffordedMeans(o, Bill(o, v), n);
    assert Small(fees, n) <==> Small(Bill(o, v), n) by {
      assert forall k | 0 <= k < n :: Bill(o, v)[k] == fees[k];
    }
    NextTimes(n - 1, NodeAsk(o).size);
  }

  /** Without memory for its nodes there is none for a tree. */
  lemma {:induction false} NodesFirst(o: Options, v: Json)
    ensures Affordable(o, v) ==> NodesAffordable(o, v)
  {
    BillMeans(o, v);
    NodesMean(o, v);
    if Affordable(o, v) {
      AffordedPrefix(o, Bill(o, v), Size(v), |Bill(o, v)|);
    }
  }

  // ----- the state of the account during a run -----

  /** How a run stands: every request so far was granted and gave enough, or the last one was refused or gave a
      block that is too small. */
  datatype Standing = Good(used: nat, granted: nat, requests: nat) | Bad(granted: nat, overrun: bool)

  /** The first `t` entries have been granted, and hold what is written to them. */
  ghost predicate Books(o: Options, bill: seq<Option<Ask>>, t: nat, granted: nat, requests: nat) {
    && t <= |bill| && Afforded(o, bill, t) && Holds(bill, t)
    && granted == Total(bill, t) && requests == Calls(bill, t)
  }

  /** All is granted: in the first pass for `alloc` nodes, in the second for all nodes and the blocks of the first
      `alloc`. */
  ghost predicate SolventTo(
    o: Options, goal: Option<Json>, firstPass: bool, alloc: nat, used: nat, granted: nat, requests: nat)
  {
    && used == (if o.maxMemory > 0 then granted else 0)
    && (o.maxMemory > 0 ==> granted <= o.maxMemory)
    && (firstPass ==> granted == alloc * NodeAsk(o).size && requests == alloc)
    && (goal.Some? ==>
          var bill, t := Bill(o, goal.value), if firstPass then alloc else Size(goal.value) + alloc;
          Books(o, bill, t, granted, requests))
  }

  /** The last request stopped the run, and it was the first that could.  In the first pass the one refused is
      that of the next node. */
  ghost predicate ShortTo(o: Options, goal: Option<Json>, firstPass: bool, nodes: nat, granted: nat, overrun: bool) {
    && (o.maxMemory > 0 ==> granted <= o.maxMemory)
    && (firstPass ==>
          if overrun then !NodeAsk(o).room
          else
            && granted == nodes * NodeAsk(o).size
            && !Answered(o, granted, nodes, NodeAsk(o).size))
    && (goal.Some? ==>
          var bill := Bill(o, goal.value);
          && granted == Spent(o, bill) && (overrun <==> Overruns(o, bill))
          && (overrun ==> !Holds(bill, |bill|))
          && (!overrun ==> !Afforded(o, bill, if firstPass then Size(goal.value) else |bill|)))
  }

  ghost predicate Stands(o: Options, goal: Option<Json>, firstPass: bool, alloc: nat, s: Standing) {
    match s
    case Good(used, granted, requests) => SolventTo(o, goal, firstPass, alloc, used, granted, requests)
    case Bad(granted, overrun) => ShortTo(o, goal, firstPass, alloc, granted, overrun)
  }

  // The parser's methods carry the account as an atom: the plain definitions under a recursion of three mutually
  // recursive layers that changes nothing, as in `Progress`.

  ghost predicate Solvent(
    o: Options, goal: Option<Json>, firstPass: bool, alloc: nat, used: nat, granted: nat, requests: nat)
  {
    AccountAt(alloc + 3, o, goal, firstPass, alloc, Good(used, granted, requests))
  }

  ghost predicate Short(o: Options, goal: Option<Json>, firstPass: bool, nodes: nat, granted: nat, overrun: bool) {
    AccountAt(nodes + 3, o, goal, firstPass, nodes, Bad(granted, overrun))
  }

  ghost predicate AccountAt(depth: nat, o: Options, goal: Option<Json>, firstPass: bool, alloc: nat, s: Standing)
    decreases depth, 2
  {
    AccountBelow(depth, o, goal, firstPass, alloc, s)
  }

  ghost predicate AccountBelow(depth: nat, o: Options, goal: Option<Json>, firstPass: bool, alloc: nat, s: Standing)
    decreases depth, 1
  {
    AccountCore(depth, o, goal, firstPass, alloc, s)
  }

  ghost predicate AccountCore(depth: nat, o: Options, goal: Option<Json>, firstPass: bool, alloc: nat, s: Standing)
    decreases depth, 0
  {
    if depth == 0 then Stands(o, goal, firstPass, alloc, s)
    else AccountAt(depth - 1, o, goal, firstPass, alloc, s)
  }

  lemma {:induction false} AccountAtDef(
    depth: nat, o: Options, goal: Option<Json>, firstPass: bool, alloc: nat, s: Standing)
    ensures AccountAt(depth, o, goal, firstPass, alloc, s) <==> Stands(o, goal, firstPass, alloc, s)
    decreases depth
  {
    assert AccountAt(depth, o, goal, firstPass, alloc, s) == AccountCore(depth, o, goal, firstPass, alloc, s);
    if depth > 0 {
      AccountAtDef(depth - 1, o, goal, firstPass, alloc, s);
    }
  }

  lemma {:induction false} SolventDef(
    o: Options, goal: Option<Json>, firstPass: bool, alloc: nat, used: nat, granted: nat, requests: nat)
    ensures Solvent(o, goal, firstPass, alloc, used, granted, requests)
            <==> SolventTo(o, goal, firstPass, alloc, used, granted, requests)
  {
    AccountAtDef(alloc + 3, o, goal, firstPass, alloc, Good(used, granted, requests));
  }

  lemma {:induction false} ShortDef(
    o: Options, goal: Option<Json>, firstPass: bool, nodes: nat, granted: nat, overrun: bool)
    ensures Short(o, goal, firstPass, nodes, granted, overrun)
            <==> ShortTo(o, goal, firstPass, nodes, granted, overrun)
  {
    AccountAtDef(nodes + 3, o, goal, firstPass, nodes, Bad(granted, overrun));
  }

  /** The next entry of the bill. */
  ghost predicate Due(o: Options, goal: Option<Json>, firstPass: bool, alloc: nat, entry: Option<Ask>) {
    && (firstPass ==> entry == Some(NodeAsk(o)))
    && (goal.Some? ==>
          && alloc < Size(goal.value)
          && Bill(o, goal.value)[if firstPass then alloc else Size(goal.value) + alloc] == entry)
  }

  lemma {:induction false} SolventStart(o: Options, goal: Option<Json>)
    ensures Solvent(o, goal, true, 0, 0, 0, 0)
  {
    SolventDef(o, goal, true, 0, 0, 0, 0);
  }

  lemma {:induction false} NextEntry(
    o: Options, bill: seq<Option<Ask>>, t: nat, used: nat, granted: nat, requests: nat, entry: Option<Ask>)
    requires t < |bill| && Books(o, bill, t, granted, requests) && entry == bill[t] && Roomy(entry)
    requires used == if o.maxMemory > 0 then granted else 0
    requires entry.Some? ==> Answered(o, used, requests, entry.value.size)
    ensures Books(o, bill, t + 1, granted + Amount(entry), if entry.Some? then requests + 1 else requests)
  {
  }

  lemma {:induction false} WithoutLimit(
    o: Options, goal: Option<Json>, firstPass: bool, alloc: nat, used: nat, granted: nat, requests: nat)
    requires Solvent(o, goal, firstPass, alloc, used, granted, requests)
    ensures o.maxMemory == 0 ==> used == 0
  {
    SolventDef(o, goal, firstPass, alloc, used, granted, requests);
  }

  /** A first pass over a text that is not accepted has been granted its nodes. */
  lemma {:induction false} NodesOnly(
    o: Options, alloc: nat, used: nat, granted: nat, requests: nat, overrun: bool, stopped: bool)
    requires if stopped then Short(o, None, true, alloc, granted, overrun)
             else !overrun && Solvent(o, None, true, alloc, used, granted, requests)
    ensures o.maxMemory > 0 ==> granted <= o.maxMemory
    ensures if overrun then !NodeAsk(o).room else granted == alloc * NodeAsk(o).size
  {
    SolventDef(o, None, true, alloc, used, granted, requests);
    ShortDef(o, None, true, alloc, granted, overrun);
  }

  /** The first pass was granted another node. */
  lemma {:induction false} SolventNode(
    o: Options, goal: Option<Json>, alloc: nat, used: nat, granted: nat, requests: nat, used': nat, granted': nat)
    requires Solvent(o, goal, true, alloc, used, granted, requests)
    requires Due(o, goal, true, alloc, Some(NodeAsk(o))) && NodeAsk(o).room
    requires Answered(o, used, requests, NodeAsk(o).size)
    requires used' == (if o.maxMemory > 0 then used + NodeAsk(o).size else used)
    requires granted' == granted + NodeAsk(o).size
    ensures Solvent(o, goal, true, alloc + 1, used', granted', requests + 1)
  {
    SolventDef(o, goal, true, alloc, used, granted, requests);
    SolventDef(o, goal, true, alloc + 1, used', granted', requests + 1);
    NextTimes(alloc, NodeAsk(o).size);
    if goal.Some? {
      NextEntry(o, Bill(o, goal.value), alloc, used, granted, requests, Some(NodeAsk(o)));
    }
  }

  /** The second pass was granted the next block, or needs none. */
  lemma {:induction false} SolventBlock(
    o: Options, v: Json, alloc: nat, used: nat, granted: nat, requests: nat, entry: Option<Ask>, used': nat,
    granted': nat, requests': nat)
    requires Solvent(o, Some(v), false, alloc, used, granted, requests) && Due(o, Some(v), false, alloc, entry)
    requires entry.Some? ==> Answered(o, used, requests, entry.value.size)
    requires Roomy(entry)
    requires used' == (if o.maxMemory > 0 then used + Amount(entry) else used)
    requires granted' == granted + Amount(entry) && requests' == (if entry.Some? then requests + 1 else requests)
    ensures Solvent(o, Some(v), false, alloc + 1, used', granted', requests')
  {
    SolventDef(o, Some(v), false, alloc, used, granted, requests);
    SolventDef(o, Some(v), false, alloc + 1, used', granted', requests');
    NextEntry(o, Bill(o, v), Size(v) + alloc, used, granted, requests, entry);
  }

  /** The next entry of the bill has been refused, or granted and is too small. */
  lemma {:induction false} ShortNow(
    o: Options, goal: Option<Json>, firstPass: bool, alloc: nat, used: nat, granted: nat, requests: nat, entry: Ask,
    granted': nat, overrun: bool)
    requires Solvent(o, goal, firstPass, alloc, used, granted, requests)
    requires Due(o, goal, firstPass, alloc, Some(entry))
    requires overrun <==> Answered(o, used, requests, entry.size)
    requires overrun ==> !entry.room
    requires granted' == if overrun then granted + entry.size else granted
    ensures Short(o, goal, firstPass, if firstPass then alloc else 0, granted', overrun)
  {
    SolventDef(o, goal, firstPass, alloc, used, granted, requests);
    ShortDef(o, goal, firstPass, if firstPass then alloc else 0, granted', overrun);
    if goal.Some? {
      ShortBill(o, Bill(o, goal.value), if firstPass then alloc else Size(goal.value) + alloc,
                if firstPass then Size(goal.value) else |Bill(o, goal.value)|, used, granted, requests, entry, granted',
                overrun);
    }
  }

  lemma {:induction false} ShortBill(
    o: Options, bill: seq<Option<Ask>>, t: nat, end: nat, used: nat, granted: nat, requests: nat, entry: Ask,
    granted': nat, overrun: bool)
    requires t < end <= |bill| && Books(o, bill, t, granted, requests) && bill[t] == Some(entry)
    requires used == if o.maxMemory > 0 then granted else 0
    requires overrun <==> Answered(o, used, requests, entry.size)
    requires overrun ==> !entry.room
    requires granted' == if overrun then granted + entry.size else granted
    ensures granted' == Spent(o, bill) && (overrun <==> Overruns(o, bill))
    ensures (overrun ==> !Holds(bill, |bill|)) && (!overrun ==> !Afforded(o, bill, end))
  {
    assert overrun <==> Passes(o, bill, t);
    StopIs(o, bill, 0, t);
    if overrun {
      assert !Roomy(bill[t]);
    } else {
      NotAfforded(o, bill, t, end);
    }
  }

  /** The first pass has made every node. */
  lemma {:induction false} SecondPass(o: Options, v: Json, used: nat, granted: nat, requests: nat)
    requires Solvent(o, Some(v), true, Size(v), used, granted, requests)
    ensures Solvent(o, Some(v), false, 0, used, granted, requests)
    ensures NodesAffordable(o, v) && NodeAsk(o).room
  {
    SolventDef(o, Some(v), true, Size(v), used, granted, requests);
    SolventDef(o, Some(v), false, 0, used, granted, requests);
    NodesMean(o, v);
    NodeEntry(o, v, 0);
    assert Roomy(Bill(o, v)[0]);
  }

  /** The bytes that a run over a text with tree `v` is granted: all of its tree, or those before the first
      request that is refused, or those up to the first block that is too small. */
  function Granted(o: Options, v: Json): nat {
    Spent(o, Bill(o, v))
  }

  /** A run over a text with tree `v` is handed a block that is too small. */
  predicate TreeOverruns(o: Options, v: Json) {
    Overruns(o, Bill(o, v))
  }

  /** The second pass has met every node. */
  lemma {:induction false} PaidUp(o: Options, v: Json, used: nat, granted: nat, requests: nat)
    requires Solvent(o, Some(v), false, Size(v), used, granted, requests)
    ensures Affordable(o, v) && TreeRoomy(o, v) && !TreeOverruns(o, v) && granted == Granted(o, v) == TreeBytes(o, v)
    ensures o.maxMemory > 0 ==> granted <= o.maxMemory
  {
    SolventDef(o, Some(v), false, Size(v), used, granted, requests);
    BillMeans(o, v);
    StopIs(o, Bill(o, v), 0, |Bill(o, v)|);
  }

  /** A run that was stopped by a request could not have had its tree. */
  lemma {:induction false} RunStopped(o: Options, v: Json, firstPass: bool, nodes: nat, granted: nat, overrun: bool)
    requires Short(o, Some(v), firstPass, nodes, granted, overrun)
    ensures !(Affordable(o, v) && TreeRoomy(o, v)) && (overrun <==> TreeOverruns(o, v))
    ensures granted == Granted(o, v) && (o.maxMemory > 0 ==> granted <= o.maxMemory)
    ensures firstPass && !overrun ==> !NodesAffordable(o, v) && granted == nodes * NodeAsk(o).size
    ensures firstPass && overrun ==> !NodeAsk(o).room
  {
    ShortDef(o, Some(v), firstPass, nodes, granted, overrun);
    BillMeans(o, v);
    NodesMean(o, v);
    NodesFirst(o, v);
  }

  /** The exact condition for the second pass to stay inside its blocks.  With memory for every request, a block
      that is too small is handed out exactly when some size of the tree is changed by a conversion; and never
      when none is. */
  lemma {:induction false} OverrunsExactly(o: Options, v: Json)
    ensures Affordable(o, v) ==> (TreeOverruns(o, v) <==> !TreeRoomy(o, v))
    ensures TreeRoomy(o, v) ==> !TreeOverruns(o, v)
  {
    BillMeans(o, v);
    OverrunsMeans(o, Bill(o, v));
  }
}
