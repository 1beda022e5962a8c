/** The two-pass parser: one loop over the text, run twice, driven by flags and a `top` pointer. */
module Parser {
  import opened Bytes
  import opened Unicode
  import opened Grammar
  import opened Preorder
  import opened Layout
  import opened Context
  import opened Arena
  import opened Styles
  import opened Progress
  import opened Sizes
  import opened Ledger
  import opened Steps
  import opened Numbers
  import opened Writes
  import opened Moves
  import opened NumberSteps
  import opened Memory

  /** What one section of the loop body decides.  `Halt` is the end of a run whose last request was refused, or was
      answered with a block that is too small. */
  datatype Flow = Go | Stop | Fail | Halt

  /** The flag bits. */
  datatype Flags = Flags(
    next: bool, reproc: bool, needComma: bool, seekValue: bool, escaped: bool, inString: bool, needColon: bool,
    done: bool, numNegative: bool, numZero: bool, numE: bool, numEGotSign: bool, numENegative: bool,
    lineComment: bool, blockComment: bool)

  /** The flags at the start of a pass: only flag_seek_value. */
  const START := Flags(false, false, false, true, false, false, false, false, false, false, false, false, false,
      false, false)

  /** The flags describe the mode: they take the place of a stack. */
  ghost predicate FlagsOk(flags: Flags, mode: Mode, remark: Remark) {
    && flags.next == mode.Finished?
    && flags.inString == mode.Reading?
    && flags.escaped == (mode.Reading? && mode.escaped)
    && flags.seekValue == mode.Seek?
    && flags.needColon == (mode.Seek? && mode.colon)
    && flags.done == mode.Done?
    && flags.lineComment == (remark == InLine)
    && flags.blockComment == (remark == InBlock)
    && (remark != NoRemark ==> Between(mode))
    && CommaOk(mode, flags.needComma)
  }

  ghost predicate CommaOk(mode: Mode, needComma: bool) {
    match mode
    case Seek(comma, _) => needComma == comma
    case Body(comma) => needComma == comma
    case Reading(_, _, _) => !needComma
    case Digits(_) => !needComma
    case Finished(_) => true
    case Done(_) => true
  }

  /** In the first pass no node owns a block or has been freed, and all are on the chain from the root. */
  ghost predicate Plain(firstPass: bool, nodes: seq<Node>, next: seq<Option<nat>>, root: Option<nat>, alloc: nat) {
    firstPass ==>
      && |nodes| == alloc && next == Chain(alloc) && root == (if alloc == 0 then None else Some(0))
      && forall k | 0 <= k < |nodes| :: nodes[k].block == NoBlock && !nodes[k].freed
  }

  /** Orders the states at one position: each may hand over to a lower one without advancing. */
  ghost function RankOf(mode: Mode, remark: Remark): nat {
    if remark == InLine then 3 else if mode.Seek? && !mode.comma then 2 else if mode.Digits? then 1 else 0
  }

  /** What a pass is doing, given that the text completes to `goal`. */
  ghost function PhaseFor(firstPass: bool, goal: Option<Json>): Phase {
    if firstPass || goal.None? then Counting else Filling(goal.value)
  }

  class State {
    const settings: Options
    const doc: Doc
    const heap: Heap
    /** The tree the grammar gives the text. */
    ghost const goal: Option<Json>

    /** The bytes charged against the limit, and the calls of the caller's allocator. */
    var used: nat
    var requests: nat
    /** A block has been handed out that is too small for what will be written to it.  The model's run ends there:
        what the code does from then on is not defined. */
    var overrun: bool
    /** The bytes granted so far. */
    ghost var granted: nat

    var firstPass: bool
    var ptr: int
    var top: Option<nat>
    var root: Option<nat>
    /** In the first pass the number of nodes made, in the second the next node to visit. */
    var alloc: nat
    var stringBase: nat
    var stringLength: nat
    var numDigits: nat

    var flags: Flags

    /** What the flags and the parent chain stand for. */
    ghost var ctx: Ctx
    ghost var mode: Mode
    ghost var remark: Remark
    /** The position of the next character to look at. */
    ghost var pos: nat

    constructor (settings: Options, text: bytes, heap: Heap)
      ensures this.settings == settings && this.heap == heap
      ensures doc == Doc(AfterMark(text), settings.comments) && goal == Document(doc)
      ensures used == requests == granted == 0 && alloc == 0 && !overrun
    {
      this.settings := settings;
      this.heap := heap;
      doc := Doc(AfterMark(text), settings.comments);
      goal := Document(Doc(AfterMark(text), settings.comments));
      used, requests, granted, overrun := 0, 0, 0, false;
      firstPass, ptr := true, 0;
      top, root, alloc := None, None, 0;
      stringBase, stringLength, numDigits := 0, 0, 0;
      flags := START;
      ctx, mode, remark, pos := Root, Seek(false, false), NoRemark, 0;
    }

    // ----- the invariant -----

    /** The arena and the pointers into it. */
    ghost predicate Arena()
      reads this, heap
    {
      && Fits(ctx, mode)
      && Stored(PhaseFor(firstPass, goal), heap.nodes, alloc, top, stringBase, ctx, mode)
      && (!firstPass ==> goal.Some? && heap.next == Chain(Size(goal.value)))
      && alloc <= |heap.nodes|
      && root == (if alloc == 0 then None else Some(0))
      && Plain(firstPass, heap.nodes, heap.next, root, alloc)
    }

    /** Every request so far has been granted, and gave enough. */
    ghost predicate Paid()
      reads this
    {
      !overrun && Solvent(settings, goal, firstPass, alloc, used, granted, requests)
    }

    /** The last request was refused, or gave a block that is too small; nothing has been given back. */
    ghost predicate Stopped()
      reads this, heap
    {
      && Plain(firstPass, heap.nodes, heap.next, root, alloc)
      && Short(settings, goal, firstPass, if firstPass then alloc else 0, granted, overrun)
    }

    // ----- memory -----

    /** json_alloc: a request within the limits goes to the caller's allocator, which answers it. */
    method Alloc(size: nat) returns (ok: bool)
      requires settings.maxMemory == 0 ==> used == 0
      modifies this`used, this`requests, this`granted
      ensures ok <==> Answered(settings, old(used), old(requests), size)
      ensures ok <==>
              && old(used) + size <= 0xFFFF_FFF7 && (settings.maxMemory > 0 ==> old(used) + size <= settings.maxMemory)
              && settings.host.answers(old(requests))
      ensures ok ==> used == old(used) + (if settings.maxMemory > 0 then size else 0)
      ensures requests == old(requests) + (if WithinLimits(settings, old(used), size) then 1 else 0)
      ensures granted == old(granted) + (if ok then size else 0)
    {
      if ULONG_LIMIT - used < size {
        return false;
      }
      if settings.maxMemory > 0 {
        used := used + size;
        if used > settings.maxMemory {
          return false;
        }
      }
      ok := settings.host.answers(requests);
      requests := requests + 1;
      if ok {
        granted := granted + size;
      }
    }

    /** The same, for something that does not fit in the requested size unless `ask.room`. */
    method Obtain(ask: Ask) returns (ok: bool)
      requires !overrun && (settings.maxMemory == 0 ==> used == 0)
      modifies this`used, this`requests, this`granted, this`overrun
      ensures ok <==> Answered(settings, old(used), old(requests), ask.size) && ask.room
      ensures overrun <==> Answered(settings, old(used), old(requests), ask.size) && !ask.room
      ensures ok ==> used == old(used) + (if settings.maxMemory > 0 then ask.size else 0)
      ensures ok ==> requests == old(requests) + 1
      ensures granted == old(granted) + (if ok || overrun then ask.size else 0)
    {
      ok := Alloc(ask.size);
      if ok && !ask.room {
        overrun := true;
        ok := false;
      }
    }

    /** new_value in the first pass: a node is made and put at the end of the chain. */
    method AddNode(kind: Kind) returns (ok: bool)
      requires firstPass && Paid() && Plain(firstPass, heap.nodes, heap.next, root, alloc)
      requires Due(settings, goal, firstPass, alloc, Some(NodeAsk(settings)))
      modifies this`used, this`requests, this`granted, this`overrun, this`top, this`root, this`alloc, heap
      ensures if ok then Paid() else Stopped()
      ensures Plain(firstPass, heap.nodes, heap.next, root, alloc)
      ensures ok <==> Answered(settings, old(used), old(requests), NodeAsk(settings).size) && NodeAsk(settings).room
      ensures ok ==> top == Some(old(alloc)) && alloc == old(alloc) + 1
      ensures ok ==> heap.nodes == old(heap.nodes) + [NewNode(kind, old(top))]
    {
      ghost var a, u, g, r := alloc, used, granted, requests;
      WithoutLimit(settings, goal, firstPass, a, u, g, r);
      ok := Obtain(NodeAsk(settings));
      if !ok {
        ShortNow(settings, goal, firstPass, a, u, g, r, NodeAsk(settings), granted, overrun);
        return;
      }
      SolventNode(settings, goal, a, u, g, r, used, granted);
      ChainGrows(a);
      if root.None? {
        root := Some(|heap.nodes|);
      }
      var value := NewNode(kind, top);
      heap.Append(value, if alloc == 0 then None else Some(alloc - 1));
      top := Some(alloc);
      alloc := alloc + 1;
    }

    /** The block that the second pass requests for a node, if it requests one. */
    method GiveBlock(n: Node) returns (ok: bool, given: Node)
      requires !overrun && (settings.maxMemory == 0 ==> used == 0)
      modifies this`used, this`requests, this`granted, this`overrun
      ensures Charge(settings, n).None? ==>
                ok && !overrun && used == old(used) && requests == old(requests) && granted == old(granted)
      ensures Charge(settings, n).Some? ==>
                var ask := Charge(settings, n).value;
                && (ok <==> Answered(settings, old(used), old(requests), ask.size) && ask.room)
                && (overrun <==> Answered(settings, old(used), old(requests), ask.size) && !ask.room)
                && (ok ==> used == old(used) + (if settings.maxMemory > 0 then ask.size else 0))
                && (ok ==> requests == old(requests) + 1)
                && granted == old(granted) + (if ok || overrun then ask.size else 0)
      ensures ok ==> given == Prepared(n)
    {
      ok, given := true, n;
      match n.kind {
        case KArray =>
          if n.length == 0 {
            return;
          }
          ok := Obtain(Ask(Request(settings, n), Room(settings, n)));
          if !ok {
            return;
          }
          given := n.(block := Items(Blank(n.length)), length := 0);
        case KObject =>
          if n.length == 0 {
            return;
          }
          ok := Obtain(Ask(Request(settings, n), Room(settings, n)));
          if !ok {
            return;
          }
          given := n.(block := Entries(BlankEntries(n.length), Blank(n.nameBytes)), nameBytes := 0, nextName := 0,
              length := 0);
        case KString =>
          ok := Obtain(Ask(Request(settings, n), Room(settings, n)));
          if !ok {
            return;
          }
          given := n.(block := Text(Blank(n.length + 1)), length := 0);
        case _ =>
      }
    }

    /** The next node of the chain becomes the top, and the first one the root. */
    method MeetNext()
      requires heap.next == Chain(|heap.nodes|) && alloc < |heap.nodes|
      modifies this`top, this`root, this`alloc
      ensures top == Some(old(alloc)) && alloc == old(alloc) + 1
      ensures root == if old(root).None? then Some(old(alloc)) else old(root)
    {
      top := Some(alloc);
      alloc := match heap.next[alloc] case Some(k) => k case None => |heap.nodes|;
      if root.None? {
        root := top;
      }
    }

    /** new_value in the second pass: the next node of the chain is met again. */
    method VisitNode() returns (ok: bool)
      requires !firstPass && goal.Some? && Paid()
      requires heap.next == Chain(Size(goal.value)) && alloc < |heap.nodes| == Size(goal.value)
      requires Due(settings, goal, firstPass, alloc, Charge(settings, heap.nodes[alloc]))
      modifies this`used, this`requests, this`granted, this`overrun, this`top, this`root, this`alloc, heap`nodes
      ensures if ok then Paid() else Stopped()
      ensures ok ==> top == Some(old(alloc)) && alloc == old(alloc) + 1
      ensures ok ==> root == if old(root).None? then Some(old(alloc)) else old(root)
      ensures ok ==> heap.nodes == old(heap.nodes)[old(alloc) := Prepared(old(heap.nodes[alloc]))]
    {
      var at := alloc;
      ghost var u, g, r, entry := used, granted, requests, Charge(settings, heap.nodes[at]);
      WithoutLimit(settings, goal, firstPass, at, u, g, r);
      MeetNext();
      var given;
      ok, given := GiveBlock(heap.nodes[at]);
      if !ok {
        ShortNow(settings, goal, firstPass, at, u, g, r, entry.value, granted, overrun);
        return;
      }
      SolventBlock(settings, goal.value, at, u, g, r, entry, used, granted, requests);
      heap.nodes := heap.nodes[at := given];
    }

    /** new_value: make a node in the first pass, meet the next one in the second. */
    method NewValue(kind: Kind) returns (ok: bool)
      requires Paid() && Plain(firstPass, heap.nodes, heap.next, root, alloc)
      requires if firstPass then Due(settings, goal, firstPass, alloc, Some(NodeAsk(settings)))
               else
                 && goal.Some? && heap.next == Chain(Size(goal.value)) && alloc < |heap.nodes| == Size(goal.value)
                 && Due(settings, goal, firstPass, alloc, Charge(settings, heap.nodes[alloc]))
      modifies this`used, this`requests, this`granted, this`overrun, this`top, this`root, this`alloc, heap
      ensures if ok then Paid() else Stopped()
      ensures Plain(firstPass, heap.nodes, heap.next, root, alloc) && (!firstPass ==> heap.next == old(heap.next))
      ensures ok ==> top == Some(old(alloc)) && alloc == old(alloc) + 1
      ensures ok ==> root == if old(root).None? then Some(old(alloc)) else old(root)
      ensures ok && firstPass ==> heap.nodes == old(heap.nodes) + [NewNode(kind, old(top))]
      ensures ok && !firstPass ==>
                heap.nodes == old(heap.nodes)[old(alloc) := Prepared(old(heap.nodes[alloc]))]
    {
      if firstPass {
        ok := AddNode(kind);
      } else {
        ok := VisitNode();
      }
    }

    // ----- the arena operations of the loop body -----

    /** new_value, as the arena sees it. */
    method MakeNode(kind: Kind, ghost c: Ctx, ghost m: Mode, ghost next: nat) returns (ok: bool)
      requires Arena() && Paid() && mode == Seek(false, false)
      requires StartsIn(ctx, c, m) && Completes(doc, c, m, NoRemark, next, goal)
      modifies this`used, this`requests, this`granted, this`overrun, this`top, this`root, this`alloc, heap
      ensures remark == old(remark) && pos == old(pos)
      ensures if ok then Paid() else Stopped()
      ensures Plain(firstPass, heap.nodes, heap.next, root, alloc) && (!firstPass ==> heap.next == old(heap.next))
      ensures firstPass ==> old(alloc) == |old(heap.nodes)|
      ensures ok ==> top == Some(old(alloc)) && alloc == old(alloc) + 1 && root == Some(0)
      ensures ok ==>
                && old(alloc) < |heap.nodes|
                && heap.nodes[old(alloc)] == Made(PhaseFor(firstPass, goal), old(heap.nodes), old(alloc), old(top),
                    kind)
                && heap.nodes == WithMade(PhaseFor(firstPass, goal), old(heap.nodes), old(alloc),
                    heap.nodes[old(alloc)])
    {
      NextDue(settings, doc, firstPass, PhaseFor(firstPass, goal), heap.nodes, alloc, top, stringBase, ctx, c, m, next,
          goal);
      ok := NewValue(kind);
    }

    /** `{` or `[` */
    method OpenNode(kind: Kind, ghost c: Ctx, ghost m: Mode, ghost next: nat) returns (ok: bool)
      requires Arena() && Paid() && mode == Seek(false, false)
      requires (kind == KArray && c == InArray([], ctx) && m == Seek(false, false))
               || (kind == KObject && c == InObject([], [], ctx) && m == Body(false))
      requires Completes(doc, c, m, NoRemark, next, goal)
      modifies this`used, this`requests, this`granted, this`overrun, this`top, this`root, this`alloc, this`ctx,
          this`mode, heap
      ensures remark == old(remark) && pos == old(pos)
      ensures if ok then Paid() else Stopped()
      ensures ok ==> Arena() && ctx == c && mode == m
    {
      ghost var before, t, a := heap.nodes, top, alloc;
      ok := MakeNode(kind, c, m, next);
      if ok {
        OpenStored(doc, PhaseFor(firstPass, goal), before, a, t, stringBase, ctx, c, m, next, goal, kind, heap.nodes[a],
                   heap.nodes, alloc, top);
        ctx, mode := c, m;
      }
    }

    /** A literal, or in the second pass a number. */
    method LeafNode(kind: Kind, isTrue: bool, ghost v: Json, ghost next: nat) returns (ok: bool)
      requires Arena() && Paid() && mode == Seek(false, false)
      requires Completes(doc, ctx, Finished(v), NoRemark, next, goal)
      requires !v.JArray? && !v.JObject? && !v.JString? && (firstPass ==> LeafKind(kind, v))
               && (isTrue <==> v == JBool(true))
      modifies this`used, this`requests, this`granted, this`overrun, this`top, this`root, this`alloc, this`mode, heap
      ensures remark == old(remark) && pos == old(pos)
      ensures if ok then Paid() else Stopped()
      ensures ok ==> Arena() && mode == Finished(v)
    {
      ghost var before, t, a, ph := heap.nodes, top, alloc, PhaseFor(firstPass, goal);
      ok := MakeNode(kind, ctx, Finished(v), next);
      if ok {
        ghost var made := heap.nodes[a];
        if isTrue {
          RewriteMade(ph, before, a, made, made.(flag := true));
          heap.nodes := heap.nodes[top.value := heap.nodes[top.value].(flag := true)];
        }
        LeafStored(doc, ph, before, a, t, stringBase, ctx, v, next, goal, kind, heap.nodes[a], heap.nodes, alloc, top);
        mode := Finished(v);
      }
    }

    /** The opening quote of a string value. */
    method OpenString(ghost next: nat) returns (ok: bool)
      requires Arena() && Paid() && mode == Seek(false, false)
      requires Completes(doc, ctx, Reading(false, [], false), NoRemark, next, goal)
      modifies this`used, this`requests, this`granted, this`overrun, this`top, this`root, this`alloc, this`mode,
          this`stringBase,
          this`stringLength, heap
      ensures remark == old(remark) && pos == old(pos)
      ensures if ok then Paid() else Stopped()
      ensures ok ==> Arena() && mode == Reading(false, [], false) && stringLength == 0
    {
      ghost var before, t, a := heap.nodes, top, alloc;
      ok := MakeNode(KString, ctx, Reading(false, [], false), next);
      if ok {
        StringStored(doc, PhaseFor(firstPass, goal), before, a, t, stringBase, ctx, next, goal, heap.nodes[a],
            heap.nodes, alloc, top);
        stringBase, stringLength := 0, 0;
        mode := Reading(false, [], false);
      }
    }

    /** The first character of a number, in the first pass. */
    method OpenNumber(ghost start: nat, ghost next: nat) returns (ok: bool)
      requires Arena() && Paid() && mode == Seek(false, false) && firstPass
      requires Completes(doc, ctx, Digits(start), NoRemark, next, goal)
      modifies this`used, this`requests, this`granted, this`overrun, this`top, this`root, this`alloc, this`mode, heap
      ensures remark == old(remark) && pos == old(pos)
      ensures if ok then Paid() else Stopped()
      ensures ok ==> Arena() && mode == Digits(start)
      ensures ok ==> 0 < alloc <= |heap.nodes|
      ensures ok ==> heap.nodes[alloc - 1].kind == KInteger && heap.nodes[alloc - 1].integer == 0
    {
      ghost var before, t, a := heap.nodes, top, alloc;
      NumberDue(settings, doc, PhaseFor(firstPass, goal), heap.nodes, alloc, top, stringBase, ctx, start, next, goal);
      ok := NewValue(KInteger);
      if ok {
        NumberStored(PhaseFor(firstPass, goal), before, a, t, stringBase, ctx, start, heap.nodes, alloc, top);
        mode := Digits(start);
      }
    }

    /** Rewrites the node of the number that is being read. */
    method SetNumber(kind: Kind, integer: int)
      requires Arena() && mode.Digits? && firstPass
      requires kind == KInteger || (kind == KDouble && integer == 0)
      modifies heap`nodes
      ensures remark == old(remark) && pos == old(pos)
      ensures Arena() && 0 < alloc == |heap.nodes| && |heap.nodes| == old(|heap.nodes|)
      ensures heap.nodes[alloc - 1].kind == kind && heap.nodes[alloc - 1].integer == integer
    {
      ghost var ph := PhaseFor(firstPass, goal);
      DigitTop(ph, heap.nodes, alloc, top, stringBase, ctx, mode.start);
      ghost var n := heap.nodes[alloc - 1].(kind := kind, integer := integer);
      DigitStored(ph, heap.nodes, alloc, top, stringBase, ctx, mode.start, n);
      heap.nodes := heap.nodes[alloc - 1 := heap.nodes[alloc - 1].(kind := kind, integer := integer)];
    }

    /** The opening quote of a name. */
    method OpenName(ghost next: nat)
      requires Arena() && mode == Body(false)
      requires Completes(doc, ctx, Reading(true, [], false), NoRemark, next, goal)
      modifies this`mode, this`stringBase, this`stringLength
      ensures remark == old(remark) && pos == old(pos)
      ensures Arena() && mode == Reading(true, [], false) && stringLength == 0
    {
      NameStored(doc, PhaseFor(firstPass, goal), heap.nodes, alloc, top, stringBase, ctx, next, goal);
      stringBase, stringLength := heap.nodes[top.value].nextName, 0;
      mode := Reading(true, [], false);
    }

    /** string_add: count the byte, and in the second pass write it.  `full` are the bytes of the string
        once the current escape is done, so the block has room for them. */
    method StringAdd(b: byte, ghost full: bytes, ghost next: nat)
      requires Arena() && mode.Reading? && !mode.escaped && stringLength == |mode.acc|
      requires |mode.acc| < |full| && Completes(doc, ctx, Reading(mode.key, full, false), NoRemark, next, goal)
      modifies this`mode, this`stringLength, heap`nodes
      ensures remark == old(remark) && pos == old(pos)
      ensures Arena() && mode == Reading(old(mode.key), old(mode.acc) + [b], false) && stringLength == |mode.acc|
    {
      ghost var key, acc, ph := mode.key, mode.acc, PhaseFor(firstPass, goal);
      ghost var m := Reading(key, acc + [b], false);
      if !firstPass {
        var at := stringBase + stringLength;
        RoomFor(doc, ph, ctx, key, acc + [b], full, false, next, goal);
        PutStored(ph, heap.nodes, alloc, top, stringBase, ctx, key, acc, b, at);
        heap.nodes := heap.nodes[top.value := PutByte(heap.nodes[top.value], at, b)];
      } else {
        CountStored(ph, heap.nodes, alloc, top, stringBase, ctx, key, acc, [b]);
      }
      stringLength := stringLength + 1;
      mode := m;
    }

    /** First pass: the bytes of an escaped character are only counted. */
    method StringCount(n: nat, ghost more: bytes)
      requires Arena() && firstPass && mode.Reading? && !mode.escaped && stringLength == |mode.acc| && n == |more|
      modifies this`mode, this`stringLength
      ensures remark == old(remark) && pos == old(pos)
      ensures Arena() && mode == Reading(old(mode.key), old(mode.acc) + more, false) && stringLength == |mode.acc|
    {
      CountStored(PhaseFor(firstPass, goal), heap.nodes, alloc, top, stringBase, ctx, mode.key, mode.acc, more);
      stringLength := stringLength + n;
      mode := Reading(mode.key, mode.acc + more, false);
    }

    /** The closing quote of a string value. */
    method CloseString(ghost next: nat)
      requires Arena() && mode.Reading? && !mode.key && !mode.escaped && stringLength == |mode.acc|
      requires top.Some? && top.value < |heap.nodes|
      requires Completes(doc, ctx, Finished(JString(mode.acc)), NoRemark, next, goal)
      modifies this`mode, heap`nodes
      ensures remark == old(remark) && pos == old(pos)
      ensures Arena() && mode == Finished(JString(old(mode.acc)))
    {
      var at := stringBase + stringLength;
      StringQuote(doc, PhaseFor(firstPass, goal), heap.nodes, alloc, top, stringBase, ctx, mode.acc, next, goal, at,
          stringLength);
      var n := heap.nodes[top.value];
      if !firstPass {
        n := PutByte(n, at, NUL);
      }
      heap.nodes := heap.nodes[top.value := n.(length := stringLength)];
      mode := Finished(JString(mode.acc));
    }

    /** The closing quote of a name. */
    method CloseName(ghost c: Ctx, ghost next: nat)
      requires Arena() && mode.Reading? && mode.key && !mode.escaped && stringLength == |mode.acc|
      requires c == InObject(ctx.names + [mode.acc], ctx.items, ctx.outer)
      requires Completes(doc, c, Seek(false, true), NoRemark, next, goal)
      modifies this`ctx, this`mode, heap`nodes
      ensures remark == old(remark) && pos == old(pos)
      ensures Arena() && ctx == c && mode == Seek(false, true)
    {
      var at := stringBase + stringLength;
      NameQuote(doc, PhaseFor(firstPass, goal), heap.nodes, alloc, top, stringBase, ctx, mode.acc, c, next, goal, at,
          stringLength);
      var n := heap.nodes[top.value];
      if firstPass {
        n := Counted(n, stringLength);
      } else {
        n := PutByte(n, at, NUL);
        n := Named(n, stringLength);
      }
      heap.nodes := heap.nodes[top.value := n];
      ctx, mode := c, Seek(false, true);
    }

    /** A finished value is linked into its container, which becomes the top again. */
    method LinkValue(parent: nat, ghost next: nat) returns (ok: bool)
      requires Arena() && mode.Finished? && !ctx.Root?
      requires top.Some? && Owner(ctx) == Some(parent)
      requires Completes(doc, ctx, mode, NoRemark, next, goal)
      modifies this`top, this`ctx, this`mode, heap`nodes
      ensures remark == old(remark) && pos == old(pos)
      ensures Plain(firstPass, heap.nodes, heap.next, root, alloc)
      ensures ok <==> old(|ctx.items|) + 1 <= UINT_LIMIT
      ensures ok ==> Arena() && ctx == Grow(old(ctx), old(mode.v))
      ensures ok ==> mode == if old(ctx.InArray?) then Seek(true, false) else Body(true)
    {
      ghost var c, m := Grow(ctx, mode.v), if ctx.InArray? then Seek(true, false) else Body(true);
      LinkParent(doc, PhaseFor(firstPass, goal), heap.nodes, alloc, top, stringBase, ctx, mode.v, next, goal, parent,
          c, m);
      heap.nodes := heap.nodes[parent := Linked(heap.nodes[parent], top.value, !firstPass)];
      if heap.nodes[parent].length > UINT_LIMIT {
        return false;
      }
      top := Some(parent);
      ctx, mode := c, m;
      return true;
    }

    // ----- the loop -----

    /** The state when the next character to look at is the one at `pos`. */
    ghost predicate Inv()
      reads this, heap
    {
      && pos <= |doc.text|
      && FlagsOk(flags, mode, remark)
      && (remark != NoRemark ==> doc.comments)
      && (mode.Reading? ==> stringLength == |mode.acc|)
      && Completes(doc, ctx, mode, remark, pos, goal)
      && Arena()
      && (mode.Digits? ==>
            && firstPass
            && 0 < alloc
            && var n := heap.nodes[alloc - 1];
               NumberState(doc, mode.start, pos, n.kind, flags.numE, flags.numEGotSign, flags.numZero, numDigits,
                   flags.numNegative, n.integer))
    }

    /** What every section of the loop body promises. */
    twostate predicate Stepped(flow: Flow)
      reads this, heap
    {
      && firstPass == old(firstPass)
      && Plain(firstPass, heap.nodes, heap.next, root, alloc)
      && match flow
         case Go =>
           && Inv()
           && pos == (if flags.reproc then ptr else ptr + 1)
           && (pos > old(pos) || (pos == old(pos) && RankOf(mode, remark) < old(RankOf(mode, remark))))
         case Stop => goal.Some? && mode == Done(goal.value) && ctx == Root && Arena()
         case Fail => goal.None?
         case Halt => Stopped()
    }

    /** The loop is about to look at the character at `ptr`. */
    ghost predicate Ready()
      reads this, heap
    {
      ptr == pos <= |doc.text| && Inv() && !flags.next && !flags.reproc
    }

    /** A section is done: the flags are set, and the next character to look at is the one at `p`. */
    method Advance(f: Flags, ghost p: nat)
      requires Arena() && FlagsOk(f, mode, remark) && (remark != NoRemark ==> doc.comments) && p <= |doc.text|
      requires !mode.Digits? && (mode.Reading? ==> stringLength == |mode.acc|)
      requires Completes(doc, ctx, mode, remark, p, goal)
      modifies this`flags, this`pos
      ensures Inv() && flags == f && pos == p
    {
      flags := f;
      pos := p;
    }

    /** The same while a number is read. */
    method AdvanceNumber(f: Flags, ghost p: nat)
      requires Arena() && mode.Digits? && firstPass && remark == NoRemark && FlagsOk(f, mode, remark)
      requires p <= |doc.text| && Completes(doc, ctx, mode, NoRemark, p, goal) && 0 < alloc <= |heap.nodes|
      requires var n := heap.nodes[alloc - 1];
        NumberState(doc, mode.start, p, n.kind, f.numE, f.numEGotSign, f.numZero, numDigits, f.numNegative, n.integer)
      modifies this`flags, this`pos
      ensures Inv() && flags == f && pos == p
    {
      flags := f;
      pos := p;
    }

    // ----- strings -----

    /** Reads four hexadecimal digits; the pointer stops at the last one. */
    method HexDigits() returns (ok: bool, unit: bv32)
      requires 0 <= ptr && ptr + 4 < |doc.text|
      modifies this`ptr
      ensures ok <==> HexAt(doc, old(ptr) + 1)
      ensures ok ==> ptr == old(ptr) + 4 && unit == UnitAt(doc, old(ptr) + 1)
    {
      unit := 0;
      ptr := ptr + 1;
      var h1 := HexValue(doc.text[ptr]);
      if h1 == 0xFF {
        return false, 0;
      }
      ptr := ptr + 1;
      var h2 := HexValue(doc.text[ptr]);
      if h2 == 0xFF {
        return false, 0;
      }
      ptr := ptr + 1;
      var h3 := HexValue(doc.text[ptr]);
      if h3 == 0xFF {
        return false, 0;
      }
      ptr := ptr + 1;
      var h4 := HexValue(doc.text[ptr]);
      if h4 == 0xFF {
        return false, 0;
      }
      return true, CodeUnit(h1, h2, h3, h4);
    }

    /** The character of a \u escape; the pointer starts at the `u` and stops at the last digit. */
    method ReadCharacter() returns (ok: bool, u: bv32)
      requires 0 <= ptr < |doc.text|
      modifies this`ptr
      ensures ok <==> EscapedChar(doc, old(ptr) + 1).Ok?
      ensures ok ==> ptr > old(ptr) && EscapedChar(doc, old(ptr) + 1) == Parsed.Ok(u, ptr + 1)
    {
      u := 0;
      if |doc.text| - ptr <= 4 {
        return false, u;
      }
      ok, u := HexDigits();
      if !ok {
        return;
      }
      if IsSurrogate(u) {
        if |doc.text| - ptr <= 6 {
          return false, u;
        }
        ptr := ptr + 1;
        if doc.text[ptr] != BACKSLASH {
          return false, u;
        }
        ptr := ptr + 1;
        if doc.text[ptr] != 0x75 {
          return false, u;
        }
        var u2;
        ok, u2 := HexDigits();
        if ok {
          u := JoinPair(u, u2);
        }
      }
    }

    /** The bytes of an escaped character: counted in the first pass, written in the second. */
    method AddCharacter(u: bv32, ghost next: nat)
      requires Arena() && mode.Reading? && !mode.escaped && stringLength == |mode.acc|
      requires Completes(doc, ctx, Reading(mode.key, mode.acc + Encode(u), false), NoRemark, next, goal)
      modifies this`mode, this`stringLength, heap`nodes
      ensures remark == old(remark) && pos == old(pos)
      ensures Arena() && mode == Reading(old(mode.key), old(mode.acc) + Encode(u), false) && stringLength == |mode.acc|
    {
      ghost var key, acc := mode.key, mode.acc;
      var e := Encode(u);
      ghost var full := acc + e;
      if firstPass && u > 0x7F {
        StringCount(if u <= 0x7FF then 2 else if u <= 0xFFFF then 3 else 4, e);
        return;
      }
      for i := 0 to |e|
        invariant remark == old(remark) && pos == old(pos)
        invariant Arena() && mode == Reading(key, acc + e[..i], false) && stringLength == |mode.acc|
      {
        assert acc + e[..i] + [e[i]] == acc + e[..i + 1];
        StringAdd(e[i], full, next);
      }
      assert e[..|e|] == e;
    }

    /** A \\u escape; the pointer is at the `u`. */
    method UnicodeEscape(ghost key: bool, ghost acc: bytes, ghost e: Parsed<bv32>) returns (ok: bool)
      requires 0 <= ptr < |doc.text| && e == EscapedChar(doc, ptr + 1)
      requires Arena() && mode == Reading(key, acc, false) && stringLength == |acc|
      requires e.Ok? ==> Completes(doc, ctx, Reading(key, acc + Encode(e.value), false), NoRemark, e.next, goal)
      modifies this`ptr, this`mode, this`stringLength, this`pos, heap`nodes
      ensures remark == old(remark)
      ensures ok <==> e.Ok?
      ensures Plain(firstPass, heap.nodes, heap.next, root, alloc)
      ensures ok ==> Arena() && ptr > old(ptr) && pos == ptr + 1 <= |doc.text|
      ensures ok ==> mode == Reading(key, acc + Encode(e.value), false) && stringLength == |mode.acc|
      ensures ok ==> Completes(doc, ctx, mode, NoRemark, pos, goal)
    {
      var u;
      ok, u := ReadCharacter();
      if ok {
        pos := e.next;
        AddCharacter(u, pos);
      }
    }

    /** The `u` of a \\u escape after the backslash. */
    method EscapedUnicode() returns (ok: bool)
      requires Ready() && remark == NoRemark && mode.Reading? && flags.escaped && At(doc, ptr) == 0x75
               && stringLength <= UINT_LIMIT
      modifies this`ptr, this`flags, this`mode, this`stringLength, this`pos, heap`nodes
      ensures Plain(firstPass, heap.nodes, heap.next, root, alloc)
      ensures if ok then Inv() && !flags.reproc && pos == ptr + 1 && ptr >= old(ptr) else goal.None?
    {
      ghost var key, acc, e := mode.key, mode.acc, EscapedChar(doc, ptr + 1);
      ReadUnicode(doc, ctx, key, acc, ptr, goal);
      EscapeStored(PhaseFor(firstPass, goal), heap.nodes, alloc, top, stringBase, ctx, key, acc, true, false);
      mode := Reading(key, acc, false);
      ok := UnicodeEscape(key, acc, e);
      if ok {
        Advance(flags.(escaped := false), pos);
      }
    }

    /** Any other character after a backslash. */
    method EscapedLetter(b: byte)
      requires Ready() && remark == NoRemark && mode.Reading? && flags.escaped && b == At(doc, ptr) && b != NUL
               && b != 0x75
      requires stringLength <= UINT_LIMIT
      modifies this`flags, this`mode, this`stringLength, this`pos, heap`nodes
      ensures Inv() && !flags.reproc && pos == ptr + 1
    {
      var c := match b
        case 0x62 => 0x08
        case 0x66 => 0x0C
        case 0x6E => 0x0A
        case 0x72 => 0x0D
        case 0x74 => 0x09
        case _ => b;
      ghost var key, acc, p := mode.key, mode.acc, ptr + 1;
      ReadLetter(doc, ctx, key, acc, ptr, c, goal);
      EscapeStored(PhaseFor(firstPass, goal), heap.nodes, alloc, top, stringBase, ctx, key, acc, true, false);
      mode := Reading(key, acc, false);
      StringAdd(c, acc + [c], p);
      Advance(flags.(escaped := false), p);
    }

    /** The closing quote of a string value. */
    method QuoteValue()
      requires Ready() && remark == NoRemark && mode.Reading? && !mode.key && !flags.escaped
               && At(doc, ptr) == QUOTE && stringLength <= UINT_LIMIT
      requires top.Some? && top.value < |heap.nodes|
      modifies this`flags, this`mode, this`pos, heap`nodes
      ensures Inv() && !flags.reproc && pos == ptr + 1
    {
      ghost var p := ptr + 1;
      ReadQuote(doc, ctx, mode.acc, ptr, goal);
      CloseString(p);
      Advance(flags.(inString := false, next := true), p);
    }

    /** The closing quote of a name. */
    method QuoteName()
      requires Ready() && remark == NoRemark && mode.Reading? && mode.key && !flags.escaped
               && At(doc, ptr) == QUOTE && stringLength <= UINT_LIMIT
      modifies this`flags, this`ctx, this`mode, this`pos, heap`nodes
      ensures Inv() && !flags.reproc && pos == ptr + 1
    {
      ghost var c, p := InObject(ctx.names + [mode.acc], ctx.items, ctx.outer), ptr + 1;
      ReadNameQuote(doc, ctx, mode.acc, ptr, goal);
      CloseName(c, p);
      Advance(flags.(inString := false, seekValue := true, needColon := true), p);
    }

    method Backslash()
      requires Ready() && remark == NoRemark && mode.Reading? && !flags.escaped && At(doc, ptr) == BACKSLASH
               && stringLength <= UINT_LIMIT
      modifies this`flags, this`mode, this`pos
      ensures Inv() && !flags.reproc && pos == ptr + 1
    {
      ghost var key, acc, p := mode.key, mode.acc, ptr + 1;
      ReadBackslash(doc, ctx, key, acc, ptr, goal);
      EscapeStored(PhaseFor(firstPass, goal), heap.nodes, alloc, top, stringBase, ctx, key, acc, false, true);
      mode := Reading(key, acc, true);
      Advance(flags.(escaped := true), p);
    }

    method PlainByte(b: byte)
      requires Ready() && remark == NoRemark && mode.Reading? && !flags.escaped && b == At(doc, ptr)
      requires b != NUL && b != QUOTE && b != BACKSLASH && stringLength <= UINT_LIMIT
      modifies this`flags, this`mode, this`stringLength, this`pos, heap`nodes
      ensures Inv() && !flags.reproc && pos == ptr + 1
    {
      ghost var acc, p := mode.acc, ptr + 1;
      ReadByte(doc, ctx, mode.key, acc, ptr, b, goal);
      StringAdd(b, acc + [b], p);
      Advance(flags, p);
    }

    /** A character inside a string or a name. */
    method StringByte(b: byte) returns (flow: Flow)
      requires Ready() && mode.Reading? && b == At(doc, ptr)
      modifies this`ptr, this`flags, this`ctx, this`mode, this`stringLength, this`pos, heap`nodes
      ensures Stepped(flow)
    {
      if b == NUL || stringLength > UINT_LIMIT {
        ReadFails(doc, ctx, mode.key, mode.acc, mode.escaped, ptr, goal);
        return Fail;
      }
      if flags.escaped {
        if b == 0x75 {
          var ok := EscapedUnicode();
          return if ok then Go else Fail;
        }
        EscapedLetter(b);
      } else if b == BACKSLASH {
        Backslash();
      } else if b != QUOTE {
        PlainByte(b);
      } else {
        // the node at the top tells a string value from a name
        TopString(PhaseFor(firstPass, goal), heap.nodes, alloc, top, stringBase, ctx, mode);
        if heap.nodes[top.value].kind == KString {
          QuoteValue();
        } else {
          QuoteName();
        }
      }
      return Go;
    }

    // ----- comments -----

    /** The end of a line comment: its last character is looked at again. */
    method EndLine()
      requires Ready() && remark == InLine && Completes(doc, ctx, mode, NoRemark, pos, goal)
      modifies this`ptr, this`flags, this`remark
      ensures Inv() && !flags.reproc && !flags.next && pos == ptr + 1 && remark == NoRemark
    {
      flags := flags.(lineComment := false);
      remark := NoRemark;
      ptr := ptr - 1;
    }

    /** A character inside a line comment. */
    method LineByte(b: byte)
      requires Ready() && remark == InLine && b == At(doc, ptr)
      modifies this`ptr, this`flags, this`remark, this`pos
      ensures Inv() && !flags.reproc && !flags.next && pos == ptr + 1
      ensures pos > old(pos) || (pos == old(pos) && remark == NoRemark)
      ensures mode == old(mode)
    {
      LineStep(doc, ctx, mode, ptr, goal);
      if b == CR || b == LF || b == NUL {
        EndLine();
      } else {
        pos := pos + 1;
      }
    }

    /** A character inside a block comment. */
    method BlockByte(b: byte) returns (ok: bool)
      requires Ready() && remark == InBlock && b == At(doc, ptr)
      modifies this`ptr, this`flags, this`remark, this`pos
      ensures if ok then Inv() && !flags.reproc && !flags.next && pos == ptr + 1 && pos > old(pos) else goal.None?
    {
      BlockStep(doc, ctx, mode, ptr, goal);
      if b == NUL {
        return false;
      }
      ghost var p := pos + 1;
      if b == STAR && ptr < |doc.text| - 1 && doc.text[ptr + 1] == SLASH {
        p := pos + 2;
        flags := flags.(blockComment := false);
        remark := NoRemark;
        ptr := ptr + 1;
      }
      pos := p;
      return true;
    }

    /** No comment may follow a number directly. */
    ghost method NotAfterNumber()
      requires Ready() && mode.Digits? && At(doc, ptr) == SLASH && doc.comments && remark == NoRemark
               && alloc <= |heap.nodes|
      ensures goal.None?
    {
      var n := heap.nodes[alloc - 1];
      NumberEnd(doc, mode.start, ptr, n.kind, flags.numE, flags.numEGotSign, flags.numZero, numDigits,
                flags.numNegative, n.integer, ctx, goal);
    }

    /** A slash where a comment may start. */
    method OpenComment() returns (ok: bool)
      requires Ready() && Between(mode) && At(doc, ptr) == SLASH && doc.comments && remark == NoRemark
      modifies this`ptr, this`flags, this`remark, this`pos
      ensures if ok then Inv() && !flags.reproc && !flags.next && pos == ptr + 1 && pos > old(pos) else goal.None?
    {
      ghost var i, p := ptr, pos + 2;
      ptr := ptr + 1;
      if ptr == |doc.text| || (doc.text[ptr] != SLASH && doc.text[ptr] != STAR) {
        BadComment(doc, ctx, mode, i, goal);
        return false;
      }
      if doc.text[ptr] == SLASH {
        OpenLineComment(doc, ctx, mode, i, goal);
        remark := InLine;
        Advance(flags.(lineComment := true), p);
      } else {
        OpenBlockComment(doc, ctx, mode, i, goal);
        remark := InBlock;
        Advance(flags.(blockComment := true), p);
      }
      return true;
    }

    /** A slash: a comment, unless a number is being read. */
    method SlashByte() returns (ok: bool)
      requires Ready() && !mode.Reading? && At(doc, ptr) == SLASH && doc.comments && remark == NoRemark
      modifies this`ptr, this`flags, this`remark, this`pos
      ensures if ok then Inv() && !flags.reproc && !flags.next && pos == ptr + 1 && pos > old(pos) else goal.None?
    {
      if !(flags.seekValue || flags.done) {
        TopKind(PhaseFor(firstPass, goal), heap.nodes, alloc, top, stringBase, ctx, mode);
        if heap.nodes[top.value].kind != KObject {
          NotAfterNumber();
          return false;
        }
      }
      ok := OpenComment();
    }

    /** A character while comments are enabled; `taken` says that the rest of the loop body is skipped. */
    method CommentByte(b: byte) returns (flow: Flow, taken: bool)
      requires Ready() && !mode.Reading? && b == At(doc, ptr) && doc.comments
      modifies this`ptr, this`flags, this`remark, this`pos
      ensures taken ==> Stepped(flow) && !flow.Stop? && !flow.Halt?
      ensures taken && flow.Go? ==> !flags.next && !flags.reproc
      ensures !taken ==> Ready() && remark == NoRemark && b != SLASH
      ensures !taken ==> ptr == old(ptr) && flags == old(flags) && pos == old(pos) && old(remark) == NoRemark
    {
      var ok := true;
      if flags.lineComment {
        LineByte(b);
      } else if flags.blockComment {
        ok := BlockByte(b);
      } else if b == SLASH {
        ok := SlashByte();
      } else {
        return Go, false;
      }
      return if ok then Go else Fail, true;
    }

    // ----- after the root value -----

    method TrailingByte(b: byte) returns (flow: Flow)
      requires Ready() && mode.Done? && b == At(doc, ptr) && remark == NoRemark && (doc.comments ==> b != SLASH)
      modifies this`pos
      ensures Stepped(flow)
    {
      if b != NUL && IsSpace(b) {
        ghost var p := ptr + 1;
        SpaceStep(doc, ctx, mode, ptr, goal);
        pos := p;
        return Go;
      }
      DoneStep(doc, ctx, mode.v, ptr, goal);
      return if b == NUL then Stop else Fail;
    }

    // ----- seeking a value -----

    /** The end of the innermost container, which becomes a finished value. */
    method CloseTop(ghost v: Json, ghost p: nat)
      requires Inv() && remark == NoRemark && !ctx.Root?
      requires (mode.Seek? && ctx.InArray? && v == JArray(ctx.items))
               || (mode.Body? && ctx.InObject? && v == JObject(ctx.names, ctx.items))
      requires p <= |doc.text| && Completes(doc, ctx.outer, Finished(v), NoRemark, p, goal)
      modifies this`flags, this`ctx, this`mode, this`pos
      ensures Inv() && flags.reproc == old(flags.reproc) && pos == p && mode == Finished(v) && remark == NoRemark
    {
      ghost var outer := ctx.outer;
      CloseStored(doc, PhaseFor(firstPass, goal), heap.nodes, alloc, top, stringBase, ctx, mode, v, p, goal);
      ctx, mode := outer, Finished(v);
      Advance(flags.(needComma := false, seekValue := false, next := true), p);
    }

    /** `]`: the top of the stack must be an array. */
    method CloseBracket() returns (flow: Flow)
      requires Ready() && mode.Seek? && remark == NoRemark && At(doc, ptr) == RBRACKET
      modifies this`flags, this`ctx, this`mode, this`pos
      ensures Stepped(flow)
    {
      SeekClose(doc, ctx, mode.comma, mode.colon, ptr, goal);
      TopSeeking(PhaseFor(firstPass, goal), heap.nodes, alloc, top, stringBase, ctx, mode);
      if !(top.Some? && heap.nodes[top.value].kind == KArray) {
        return Fail;
      }
      CloseTop(JArray(ctx.items), ptr + 1);
      return Go;
    }

    /** A separator is due: `,` in an array or `:` in an object. */
    method Separator(b: byte) returns (flow: Flow)
      requires Ready() && mode.Seek? && remark == NoRemark && b == At(doc, ptr) && Settled(doc, ptr) && b != RBRACKET
      requires flags.needComma || flags.needColon
      modifies this`flags, this`mode, this`pos
      ensures Stepped(flow)
    {
      ghost var ph, p := PhaseFor(firstPass, goal), ptr + 1;
      var f := flags;
      if flags.needComma {
        SeekComma(doc, ctx, ptr, goal);
        if b != COMMA {
          return Fail;
        }
        f := f.(needComma := false);
      } else {
        SeekColon(doc, ctx, ptr, goal);
        if b != COLON {
          return Fail;
        }
        f := f.(needColon := false);
      }
      SeekStored(ph, heap.nodes, alloc, top, stringBase, ctx, mode, Seek(false, false));
      mode := Seek(false, false);
      Advance(f, p);
      return Go;
    }

    /** White space between tokens. */
    method SkipSpace()
      requires Ready() && remark == NoRemark && Between(mode) && ptr < |doc.text| && IsSpace(doc.text[ptr])
      modifies this`pos
      ensures Inv() && !flags.reproc && pos == ptr + 1
    {
      ghost var p := ptr + 1;
      SpaceStep(doc, ctx, mode, ptr, goal);
      pos := p;
    }

    /** `[` */
    method StartItems() returns (ok: bool)
      requires Ready() && Paid() && mode == Seek(false, false) && remark == NoRemark && At(doc, ptr) == LBRACKET
      modifies this`used, this`requests, this`granted, this`overrun, this`top, this`root, this`alloc, this`flags,
          this`ctx,
          this`mode, this`pos, heap
      ensures if ok then Paid() else Stopped()
      ensures ok ==> Inv() && !flags.reproc && pos == ptr + 1
    {
      ghost var p := ptr + 1;
      StartArray(doc, ctx, ptr, goal);
      ok := OpenNode(KArray, InArray([], ctx), Seek(false, false), p);
      if !ok {
        return;
      }
      Advance(flags.(seekValue := true), p);
    }

    /** `{` */
    method StartMembers() returns (ok: bool)
      requires Ready() && Paid() && mode == Seek(false, false) && remark == NoRemark && At(doc, ptr) == LBRACE
      modifies this`used, this`requests, this`granted, this`overrun, this`top, this`root, this`alloc, this`flags,
          this`ctx,
          this`mode, this`pos, heap
      ensures if ok then Paid() else Stopped()
      ensures ok ==> Inv() && !flags.reproc && pos == ptr + 1
    {
      ghost var p := ptr + 1;
      StartObject(doc, ctx, ptr, goal);
      ok := OpenNode(KObject, InObject([], [], ctx), Body(false), p);
      if !ok {
        return;
      }
      Advance(flags.(seekValue := false), p);
    }

    /** The opening quote of a string value. */
    method StartText() returns (ok: bool)
      requires Ready() && Paid() && mode == Seek(false, false) && remark == NoRemark && At(doc, ptr) == QUOTE
      modifies this`used, this`requests, this`granted, this`overrun, this`top, this`root, this`alloc, this`flags,
          this`mode,
          this`pos, this`stringBase, this`stringLength, heap
      ensures if ok then Paid() else Stopped()
      ensures ok ==> Inv() && !flags.reproc && pos == ptr + 1
    {
      ghost var p := ptr + 1;
      StartString(doc, ctx, ptr, goal);
      ok := OpenString(p);
      if !ok {
        return;
      }
      Advance(flags.(seekValue := false, inString := true), p);
    }

    /** Compares the text with the rest of a literal, character by character. */
    method ReadWord(word: bytes) returns (ok: bool)
      requires |word| > 0 && 0 <= ptr < |doc.text| && doc.text[ptr] == word[0]
      modifies this`ptr
      ensures ok <==> LiteralAt(doc, old(ptr), word)
      ensures ok ==> ptr == old(ptr) + |word| - 1
    {
      if |doc.text| - ptr <= |word| - 1 {
        return false;
      }
      ghost var i := ptr;
      for k := 1 to |word|
        invariant ptr == i + k - 1 && doc.text[i..i + k] == word[..k]
      {
        ptr := ptr + 1;
        if doc.text[ptr] != word[k] {
          assert doc.text[i..i + |word|][k] != word[k];
          return false;
        }
      }
      assert word[..|word|] == word;
      return true;
    }

    /** A literal that has been read. */
    method MakeLiteral(kind: Kind, isTrue: bool, ghost v: Json, ghost p: nat) returns (ok: bool)
      requires Inv() && Paid() && mode == Seek(false, false) && remark == NoRemark && !flags.reproc
      requires LeafKind(kind, v) && isTrue == (v == JBool(true))
      requires p <= |doc.text| && Completes(doc, ctx, Finished(v), NoRemark, p, goal)
      modifies this`used, this`requests, this`granted, this`overrun, this`top, this`root, this`alloc, this`flags,
          this`mode,
          this`pos, heap
      ensures if ok then Paid() else Stopped()
      ensures ok ==> Inv() && !flags.reproc && pos == p
    {
      ok := LeafNode(kind, isTrue, v, p);
      if !ok {
        return;
      }
      Advance(flags.(seekValue := false, next := true), p);
    }

    /** A literal. */
    method StartLiteral(kind: Kind, word: bytes, isTrue: bool, ghost v: Json) returns (flow: Flow)
      requires Ready() && Paid() && mode == Seek(false, false) && remark == NoRemark
      requires (word, v) == (TRUE_WORD, JBool(true)) || (word, v) == (FALSE_WORD, JBool(false)) || (word,
          v) == (NULL_WORD, JNull)
      requires At(doc, ptr) == word[0] && LeafKind(kind, v) && isTrue == (v == JBool(true))
      modifies this`used, this`requests, this`granted, this`overrun, this`top, this`root, this`alloc, this`ptr,
          this`flags,
          this`mode, this`pos, heap
      ensures Stepped(flow) && (flow.Halt? || Paid())
    {
      ghost var p := ptr + |word|;
      StartWord(doc, ctx, ptr, word, v, goal);
      var ok := ReadWord(word);
      if !ok {
        return Fail;
      }
      ok := MakeLiteral(kind, isTrue, v, p);
      return if ok then Go else Halt;
    }

    /** Second pass: skip everything that can be part of a number. */
    method SkipNumber(b0: byte)
      requires 0 <= ptr < |doc.text| && doc.text[ptr] == b0 && NumberAt(doc, ptr)
      modifies this`ptr
      ensures old(ptr) < ptr <= |doc.text|
      ensures forall k | old(ptr) <= k < ptr :: IsNumberChar(doc.text[k])
      ensures !IsNumberChar(At(doc, ptr))
    {
      var b := b0;
      ghost var i := ptr;
      while IsNumberChar(b)
        invariant i <= ptr <= |doc.text| && b == At(doc, ptr) && (ptr == i ==> b == b0)
        invariant forall k | i <= k < ptr :: IsNumberChar(doc.text[k])
        decreases |doc.text| - ptr
      {
        ptr := ptr + 1;
        if ptr == |doc.text| {
          b := NUL;
          break;
        }
        b := doc.text[ptr];
      }
    }

    /** The node of a number, in the first pass, before its first digit. */
    method OpenDigits(ghost i: nat, ghost p: nat) returns (ok: bool)
      requires Arena() && Paid() && mode == Seek(false, false) && firstPass && NumberAt(doc, i)
      requires Completes(doc, ctx, Digits(i), NoRemark, p, goal)
      modifies this`used, this`requests, this`granted, this`overrun, this`top, this`root, this`alloc, this`mode,
          this`numDigits, heap
      ensures remark == old(remark) && pos == old(pos)
      ensures if ok then Paid() else Stopped()
      ensures ok ==> Arena() && mode == Digits(i) && 0 < alloc <= |heap.nodes|
      ensures ok ==> NumberState(doc, i, First(doc, i), heap.nodes[alloc - 1].kind, false, false, false, numDigits,
                                 doc.text[i] == MINUS, heap.nodes[alloc - 1].integer)
    {
      NumberStart(doc, i);
      ok := OpenNumber(i, p);
      numDigits := 0;
    }

    /** The flags of the number automaton are cleared. */
    method ResetNumber(b: byte, ghost i: nat, ghost p: nat) returns (ok: bool)
      requires Inv() && Paid() && mode == Seek(false, false) && remark == NoRemark && firstPass && !flags.reproc
      requires NumberAt(doc, i) && doc.text[i] == b && p == First(doc, i)
               && Completes(doc, ctx, Digits(i), NoRemark, p, goal)
      modifies this`used, this`requests, this`granted, this`overrun, this`top, this`root, this`alloc, this`flags,
          this`mode,
          this`numDigits, this`pos, heap
      ensures if ok then Paid() else Stopped()
      ensures ok ==> Inv() && mode.Digits? && remark == NoRemark && pos == p && flags.reproc == (b != MINUS)
    {
      ok := OpenDigits(i, p);
      if !ok {
        return;
      }
      AdvanceNumber(flags.(seekValue := false, numNegative := b == MINUS, numE := false, numEGotSign := false,
                           numENegative := false, numZero := false, reproc := b != MINUS), p);
    }

    /** A digit or a minus sign, in the first pass: the automaton takes over. */
    method StartFirstNumber(b: byte) returns (ok: bool)
      requires Ready() && Paid() && mode == Seek(false, false) && remark == NoRemark && b == At(doc, ptr)
               && NumberAt(doc, ptr) && firstPass
      modifies this`used, this`requests, this`granted, this`overrun, this`top, this`root, this`alloc, this`flags,
          this`mode,
          this`pos, this`numDigits, heap
      ensures if ok then Paid() else Stopped()
      ensures ok ==> Inv() && mode.Digits? && remark == NoRemark && pos == (if flags.reproc then ptr else ptr + 1)
    {
      ghost var i, p := ptr, First(doc, ptr);
      StartNumber(doc, ctx, i, p, goal);
      ok := ResetNumber(b, i, p);
    }

    /** Second pass: the pointer goes to the end of the number whose node has been met. */
    method PassNumber(b: byte, ghost v: Json, ghost end: nat)
      requires Arena() && mode == Finished(v) && remark == NoRemark && FlagsOk(flags, Seek(false, false), remark)
      requires 0 <= ptr < |doc.text| && b == doc.text[ptr] && NumberAt(doc, ptr)
      requires ptr < end <= |doc.text| && (forall k | ptr <= k < end :: IsNumberChar(doc.text[k]))
               && !IsNumberChar(At(doc, end)) && Completes(doc, ctx, mode, NoRemark, end, goal)
      modifies this`ptr, this`flags, this`pos
      ensures Inv() && flags.reproc && pos == ptr > old(ptr)
    {
      ghost var i := ptr;
      SkipNumber(b);
      SkipStops(doc, i, ptr, end);
      Advance(flags.(seekValue := false, next := true, reproc := true), end);
    }

    /** A digit or a minus sign, in the second pass. */
    method StartSecondNumber(b: byte) returns (ok: bool)
      requires Ready() && Paid() && mode == Seek(false, false) && remark == NoRemark && b == At(doc, ptr)
               && NumberAt(doc, ptr) && !firstPass
      modifies this`used, this`requests, this`granted, this`overrun, this`top, this`root, this`alloc, this`ptr,
          this`flags,
          this`mode, this`pos, heap
      ensures if ok then Paid() else Stopped()
      ensures ok ==> Inv() && flags.reproc && pos == ptr > old(ptr)
    {
      ghost var i := ptr;
      StartNumber(doc, ctx, i, i, goal);
      ghost var v, end := SecondPassNumber(doc, ctx, i, i, goal);
      ok := LeafNode(KInteger, false, v, end);
      if !ok {
        return;
      }
      PassNumber(b, v, end);
    }

    /** A digit or a minus sign. */
    method StartDigits(b: byte) returns (ok: bool)
      requires Ready() && Paid() && mode == Seek(false, false) && remark == NoRemark && b == At(doc, ptr)
               && NumberAt(doc, ptr)
      modifies this`used, this`requests, this`granted, this`overrun, this`top, this`root, this`alloc, this`ptr,
          this`flags,
          this`mode, this`pos, this`numDigits, heap
      ensures if ok then Paid() else Stopped()
      ensures ok ==> Inv() && remark == NoRemark && pos == (if flags.reproc then ptr else ptr + 1)
      ensures ok ==> pos > old(ptr) || (pos == old(ptr) && mode.Digits?)
    {
      if firstPass {
        ok := StartFirstNumber(b);
      } else {
        ok := StartSecondNumber(b);
      }
    }

    /** The first character of a value. */
    method StartValue(b: byte) returns (flow: Flow)
      requires Ready() && Paid() && mode == Seek(false, false) && remark == NoRemark && b == At(doc, ptr)
               && Settled(doc, ptr) && b != RBRACKET
      modifies this`used, this`requests, this`granted, this`overrun, this`top, this`root, this`alloc, this`ptr,
          this`flags, this`ctx,
          this`mode, this`pos, this`stringBase, this`stringLength, this`numDigits, heap
      ensures Stepped(flow) && (flow.Halt? || Paid())
    {
      var ok := true;
      if b == LBRACE {
        ok := StartMembers();
      } else if b == LBRACKET {
        ok := StartItems();
      } else if b == QUOTE {
        ok := StartText();
      } else if b == 0x74 {
        flow := StartLiteral(KBoolean, TRUE_WORD, true, JBool(true));
        return;
      } else if b == 0x66 {
        flow := StartLiteral(KBoolean, FALSE_WORD, false, JBool(false));
        return;
      } else if b == 0x6E {
        flow := StartLiteral(KNull, NULL_WORD, false, JNull);
        return;
      } else if IsDigit(b) || b == MINUS {
        ok := StartDigits(b);
      } else {
        StartNothing(doc, ctx, ptr, goal);
        return Fail;
      }
      return if ok then Go else Halt;
    }

    /** A character while a value is sought. */
    method SeekByte(b: byte) returns (flow: Flow)
      requires Ready() && Paid() && mode.Seek? && remark == NoRemark && b == At(doc, ptr)
      requires doc.comments ==> b != SLASH
      modifies this`used, this`requests, this`granted, this`overrun, this`top, this`root, this`alloc, this`ptr,
          this`flags, this`ctx,
          this`mode, this`pos, this`stringBase, this`stringLength, this`numDigits, heap
      ensures Stepped(flow) && (flow.Halt? || Paid())
    {
      if IsSpace(b) {
        SkipSpace();
        return Go;
      }
      if b == RBRACKET {
        flow := CloseBracket();
      } else if flags.needComma || flags.needColon {
        flow := Separator(b);
      } else {
        flow := StartValue(b);
      }
    }

    /** A character between the members of an object. */
    method ObjectByte(b: byte) returns (flow: Flow)
      requires Ready() && mode.Body? && remark == NoRemark && b == At(doc, ptr) && (doc.comments ==> b != SLASH)
      modifies this`flags, this`ctx, this`mode, this`pos, this`stringBase, this`stringLength
      ensures Stepped(flow)
    {
      if IsSpace(b) {
        SkipSpace();
        return Go;
      }
      if b == QUOTE && !flags.needComma {
        StartName();
      } else if b == RBRACE {
        BodyClose(doc, ctx, mode.comma, ptr, goal);
        CloseTop(JObject(ctx.names, ctx.items), ptr + 1);
      } else if b == COMMA && flags.needComma {
        MemberComma();
      } else {
        BodyFails(doc, ctx, mode.comma, ptr, goal);
        return Fail;
      }
      return Go;
    }

    /** The opening quote of a name. */
    method StartName()
      requires Ready() && mode == Body(false) && remark == NoRemark && At(doc, ptr) == QUOTE
      modifies this`flags, this`mode, this`pos, this`stringBase, this`stringLength
      ensures Inv() && !flags.reproc && pos == ptr + 1
    {
      ghost var p := ptr + 1;
      BodyName(doc, ctx, ptr, goal);
      OpenName(p);
      Advance(flags.(inString := true), p);
    }

    /** The comma between two members. */
    method MemberComma()
      requires Ready() && mode == Body(true) && remark == NoRemark && At(doc, ptr) == COMMA
      modifies this`flags, this`mode, this`pos
      ensures Inv() && !flags.reproc && pos == ptr + 1
    {
      ghost var p := ptr + 1;
      BodyComma(doc, ctx, ptr, goal);
      SeekStored(PhaseFor(firstPass, goal), heap.nodes, alloc, top, stringBase, ctx, mode, Body(false));
      mode := Body(false);
      Advance(flags.(needComma := false), p);
    }

    // ----- the number automaton of the first pass -----

    /** A digit of the integer part. */
    method IntegerDigitByte(b: byte) returns (ok: bool)
      requires Ready() && mode.Digits? && remark == NoRemark && b == At(doc, ptr) && ptr < |doc.text| && IsDigit(b)
      requires heap.nodes[alloc - 1].kind == KInteger && !flags.numE
      modifies this`flags, this`numDigits, this`pos, heap`nodes
      ensures if ok then Inv() && !flags.reproc && pos == ptr + 1 else goal.None?
      ensures Plain(firstPass, heap.nodes, heap.next, root, alloc)
    {
      ghost var p := ptr + 1;
      var n := heap.nodes[alloc - 1];
      NumberDigit(doc, mode.start, ptr, n.kind, flags.numE, flags.numEGotSign, flags.numZero, numDigits,
                  flags.numNegative, n.integer, ctx, goal);
      NumberAnywhere(doc, ctx, mode.start, ptr, p, goal);
      if flags.numZero {
        return false;
      }
      numDigits := numDigits + 1;
      var f := flags;
      if numDigits == 1 && b == ZERO {
        f := f.(numZero := true);
      }
      SetNumber(KInteger, Wrap64(n.integer * 10 + DigitValue(b)));
      AdvanceNumber(f, p);
      return true;
    }

    /** A digit of the fraction or of the exponent; the values are not part of the model. */
    method DoubleDigitByte(b: byte)
      requires Ready() && mode.Digits? && remark == NoRemark && b == At(doc, ptr) && ptr < |doc.text| && IsDigit(b)
      requires heap.nodes[alloc - 1].kind == KDouble
      modifies this`flags, this`numDigits, this`pos
      ensures Inv() && !flags.reproc && pos == ptr + 1
    {
      ghost var n, p := heap.nodes[alloc - 1], ptr + 1;
      NumberDigit(doc, mode.start, ptr, n.kind, flags.numE, flags.numEGotSign, flags.numZero, numDigits,
                  flags.numNegative, n.integer, ctx, goal);
      NumberAnywhere(doc, ctx, mode.start, ptr, p, goal);
      numDigits := numDigits + 1;
      AdvanceNumber(if flags.numE then flags.(numEGotSign := true) else flags, p);
    }

    /** A digit. */
    method NumberDigitByte(b: byte) returns (ok: bool)
      requires Ready() && mode.Digits? && remark == NoRemark && b == At(doc, ptr) && ptr < |doc.text| && IsDigit(b)
      requires 0 < alloc <= |heap.nodes| && top == Some(alloc - 1)
      modifies this`flags, this`numDigits, this`pos, heap`nodes
      ensures if ok then Inv() && !flags.reproc && pos == ptr + 1 else goal.None?
      ensures Plain(firstPass, heap.nodes, heap.next, root, alloc)
    {
      ghost var n := heap.nodes[alloc - 1];
      NumberStateFlags(doc, mode.start, ptr, n.kind, flags.numE, flags.numEGotSign, flags.numZero, numDigits,
          flags.numNegative, n.integer);
      if heap.nodes[top.value].kind == KInteger {
        ok := IntegerDigitByte(b);
      } else {
        DoubleDigitByte(b);
        ok := true;
      }
    }

    /** The sign of an exponent. */
    method NumberSignByte(b: byte)
      requires Ready() && mode.Digits? && remark == NoRemark && b == At(doc, ptr) && IsSign(b)
      requires flags.numE && !flags.numEGotSign
      modifies this`flags, this`pos
      ensures Inv() && !flags.reproc && pos == ptr + 1
    {
      ghost var n, p := heap.nodes[alloc - 1], ptr + 1;
      NumberSign(doc, mode.start, ptr, n.kind, flags.numZero, numDigits, flags.numNegative, n.integer);
      NumberAnywhere(doc, ctx, mode.start, ptr, p, goal);
      AdvanceNumber(flags.(numEGotSign := true, numENegative := b == MINUS), p);
    }

    /** The number turns out to be a double: after its point, or after its exponent mark. */
    method BecomeDouble(mark: bool, ghost p: nat)
      requires Ready() && mode.Digits? && remark == NoRemark
      requires NumberState(doc, mode.start, p, KDouble, mark, false, flags.numZero && !mark, 0, flags.numNegative, 0)
      requires Completes(doc, ctx, Digits(mode.start), NoRemark, p, goal) && p <= |doc.text| && !flags.numE
      modifies this`flags, this`numDigits, this`pos, heap`nodes
      ensures Inv() && !flags.reproc && pos == p
    {
      NumberStateFlags(doc, mode.start, pos, heap.nodes[alloc - 1].kind, flags.numE, flags.numEGotSign,
          flags.numZero, numDigits,
                       flags.numNegative, heap.nodes[alloc - 1].integer);
      SetNumber(KDouble, 0);
      numDigits := 0;
      AdvanceNumber(if mark then flags.(numE := true, numZero := false) else flags, p);
    }

    /** The decimal point. */
    method NumberDotByte() returns (ok: bool)
      requires Ready() && mode.Digits? && remark == NoRemark && At(doc, ptr) == DOT
      requires heap.nodes[alloc - 1].kind == KInteger
      modifies this`flags, this`numDigits, this`pos, heap`nodes
      ensures if ok then Inv() && !flags.reproc && pos == ptr + 1 else goal.None?
      ensures Plain(firstPass, heap.nodes, heap.next, root, alloc)
    {
      ghost var n, p := heap.nodes[alloc - 1], ptr + 1;
      NumberStateFlags(doc, mode.start, ptr, n.kind, flags.numE, flags.numEGotSign, flags.numZero, numDigits,
          flags.numNegative, n.integer);
      NumberDot(doc, mode.start, ptr, flags.numZero, numDigits, flags.numNegative, n.integer, 0, ctx, goal);
      NumberAnywhere(doc, ctx, mode.start, ptr, p, goal);
      if numDigits == 0 {
        return false;
      }
      BecomeDouble(false, p);
      return true;
    }

    /** The exponent mark. */
    method NumberMarkByte() returns (ok: bool)
      requires Ready() && mode.Digits? && remark == NoRemark && IsExponentMark(At(doc, ptr)) && !flags.numE
      modifies this`flags, this`numDigits, this`pos, heap`nodes
      ensures if ok then Inv() && !flags.reproc && pos == ptr + 1 else goal.None?
      ensures Plain(firstPass, heap.nodes, heap.next, root, alloc)
    {
      TopKind(PhaseFor(firstPass, goal), heap.nodes, alloc, top, stringBase, ctx, mode);
      var n := heap.nodes[top.value];
      ghost var p := ptr + 1;
      NumberStateFlags(doc, mode.start, ptr, n.kind, flags.numE, flags.numEGotSign, flags.numZero, numDigits,
          flags.numNegative, n.integer);
      NumberMark(doc, mode.start, ptr, n.kind, flags.numZero, numDigits, flags.numNegative, n.integer, 0, ctx, goal);
      NumberAnywhere(doc, ctx, mode.start, ptr, p, goal);
      if n.kind == KDouble && numDigits == 0 {
        return false;
      }
      BecomeDouble(true, p);
      return true;
    }

    /** The number is over; its last character is looked at again as what follows it. */
    method NumberStop() returns (ok: bool)
      requires Ready() && mode.Digits? && remark == NoRemark && !IsDigit(At(doc, ptr)) && (doc.comments ==>
                At(doc, ptr) != SLASH)
      requires flags.numE && IsSign(At(doc, ptr)) ==> flags.numEGotSign
      requires heap.nodes[alloc - 1].kind == KInteger ==> At(doc, ptr) != DOT
      requires !flags.numE ==> !IsExponentMark(At(doc, ptr))
      modifies this`flags, this`mode, this`pos, heap`nodes
      ensures if ok then Inv() && flags.reproc && pos == ptr && mode.Finished? && remark == NoRemark else goal.None?
      ensures Plain(firstPass, heap.nodes, heap.next, root, alloc)
    {
      TopKind(PhaseFor(firstPass, goal), heap.nodes, alloc, top, stringBase, ctx, mode);
      var n := heap.nodes[top.value];
      ghost var v := NumberValue(n.kind, flags.numNegative, n.integer);
      NumberEnd(doc, mode.start, ptr, n.kind, flags.numE, flags.numEGotSign, flags.numZero, numDigits,
                flags.numNegative, n.integer, ctx, goal);
      if n.kind == KDouble && numDigits == 0 {
        return false;
      }
      if flags.numNegative && n.kind == KInteger {
        SetNumber(KInteger, Wrap64(-n.integer));
      }
      NumberEndStored(PhaseFor(firstPass, goal), heap.nodes, alloc, top, stringBase, ctx, mode.start, v);
      mode := Finished(v);
      Advance(flags.(next := true, reproc := true), pos);
      return true;
    }

    /** A character while a number is being read. */
    method NumberByte(b: byte) returns (flow: Flow)
      requires Ready() && mode.Digits? && remark == NoRemark && b == At(doc, ptr) && (doc.comments ==> b != SLASH)
      modifies this`flags, this`mode, this`numDigits, this`pos, heap`nodes
      ensures Stepped(flow)
    {
      var ok := true;
      TopKind(PhaseFor(firstPass, goal), heap.nodes, alloc, top, stringBase, ctx, mode);
      if IsDigit(b) {
        ok := NumberDigitByte(b);
      } else if IsSign(b) && flags.numE && !flags.numEGotSign {
        NumberSignByte(b);
      } else if b == DOT && heap.nodes[top.value].kind == KInteger {
        ok := NumberDotByte();
      } else if !flags.numE && IsExponentMark(b) {
        ok := NumberMarkByte();
      } else {
        ok := NumberStop();
      }
      return if ok then Go else Fail;
    }

    // ----- the tail of the loop body -----

    /** A finished value: the root ends the document, any other becomes an item of its container. */
    method FinishValue() returns (ok: bool)
      requires Inv() && mode.Finished? && remark == NoRemark && !flags.reproc
      modifies this`flags, this`pos, this`top, this`ctx, this`mode, heap`nodes
      ensures pos == old(pos)
      ensures Plain(firstPass, heap.nodes, heap.next, root, alloc)
      ensures if ok then Inv() && !flags.reproc && !flags.next && remark == NoRemark
              && RankOf(mode, remark) == 0 else goal.None?
    {
      ghost var ph, v, before := PhaseFor(firstPass, goal), mode.v, flags;
      ParentOfTop(ph, heap.nodes, alloc, top, stringBase, ctx, v);
      var parent := heap.nodes[top.value].parent;
      if parent.None? {
        FinishRoot(doc, v, pos, goal);
        RootStored(ph, heap.nodes, alloc, top, stringBase, v);
        mode := Done(v);
        Advance(flags.(next := false, needComma := true, done := true), pos);
        return true;
      }
      ok := LinkFinished(parent.value);
    }

    /** Links a finished value into its container. */
    method LinkFinished(parent: nat) returns (ok: bool)
      requires Inv() && mode.Finished? && remark == NoRemark && !flags.reproc
      requires top.Some? && Owner(ctx) == Some(parent)
      modifies this`flags, this`top, this`ctx, this`mode, heap`nodes
      ensures Plain(firstPass, heap.nodes, heap.next, root, alloc)
      ensures if ok then Inv() && !flags.reproc && !flags.next && remark == NoRemark
              && RankOf(mode, remark) == 0 else goal.None?
    {
      FinishItem(doc, ctx, mode.v, pos, goal);
      KindOfParent(PhaseFor(firstPass, goal), heap.nodes, alloc, top, stringBase, ctx, mode.v, parent);
      var inArray := heap.nodes[parent].kind == KArray;
      ok := LinkValue(parent, pos);
      flags := flags.(next := false, needComma := true, seekValue := inArray);
    }

    /** The end of the loop body: step back if the character is to be looked at again, and finish
        the value if one has ended. */
    method Tail() returns (ok: bool)
      requires Inv() && pos == (if flags.reproc then ptr else ptr + 1)
      requires mode.Finished? ==> remark == NoRemark
      modifies this`pos, this`ptr, this`flags, this`top, this`ctx, this`mode, heap`nodes
      ensures Plain(firstPass, heap.nodes, heap.next, root, alloc)
      ensures if ok then Inv() && !flags.reproc && !flags.next && pos == ptr + 1 else goal.None?
      ensures pos == old(pos)
      ensures ok ==> RankOf(mode, remark) <= old(RankOf(mode, remark))
    {
      if flags.reproc {
        flags := flags.(reproc := false);
        ptr := ptr - 1;
      }
      if flags.next {
        ok := FinishValue();
      } else {
        ok := true;
      }
    }

    /** The sections for a character outside strings and comments. */
    method OutsideByte(b: byte) returns (flow: Flow)
      requires Ready() && Paid() && remark == NoRemark && !mode.Reading? && b == At(doc, ptr)
      requires doc.comments ==> b != SLASH
      modifies this`used, this`requests, this`granted, this`overrun, this`top, this`root, this`alloc, this`ptr,
          this`flags, this`ctx,
          this`mode,
        this`pos, this`stringBase, this`stringLength, this`numDigits, heap
      ensures Stepped(flow) && (flow.Halt? || Paid())
      ensures remark == old(remark)
    {
      if flags.done {
        flow := TrailingByte(b);
        return;
      }
      if flags.seekValue {
        flow := SeekByte(b);
        return;
      }
      TopKind(PhaseFor(firstPass, goal), heap.nodes, alloc, top, stringBase, ctx, mode);
      if heap.nodes[top.value].kind == KObject {
        flow := ObjectByte(b);
      } else {
        flow := NumberByte(b);
      }
    }

    /** The sections of the loop body; `taken` says that a comment has taken the character, which skips the
        rest. */
    method Sections(b: byte) returns (flow: Flow, taken: bool)
      requires Ready() && Paid() && b == At(doc, ptr)
      modifies this, heap
      ensures Stepped(flow) && (flow.Halt? || Paid())
      ensures if taken then flow.Go? ==> !flags.next && !flags.reproc else mode.Finished? ==> remark == NoRemark
    {
      if flags.inString {
        flow := StringByte(b);
        return flow, false;
      }
      if doc.comments {
        flow, taken := CommentByte(b);
        if taken {
          return;
        }
      }
      flow := OutsideByte(b);
      taken := false;
    }

    /** One turn of the loop, up to the increment of the pointer. */
    method Turn() returns (flow: Flow)
      requires Ready() && Paid()
      modifies this, heap
      ensures firstPass == old(firstPass)
      ensures Plain(firstPass, heap.nodes, heap.next, root, alloc)
      ensures flow.Go? ==> Inv() && !flags.reproc && !flags.next && ptr + 1 == pos
      ensures flow.Go? ==> pos > old(pos) || (pos == old(pos) && RankOf(mode, remark) < old(RankOf(mode, remark)))
      ensures flow.Stop? ==> goal.Some? && mode == Done(goal.value) && ctx == Root && Arena()
      ensures flow.Fail? ==> goal.None?
      ensures if flow.Halt? then Stopped() else Paid()
    {
      var taken;
      flow, taken := Sections(if ptr == |doc.text| then NUL else doc.text[ptr]);
      if flow.Go? && !taken {
        var ok := Tail();
        return if ok then Go else Fail;
      }
    }

    /** The increment of the pointer. */
    method NextByte()
      requires Inv() && !flags.next && !flags.reproc && ptr + 1 == pos
      modifies this`ptr
      ensures Ready()
    {
      ptr := ptr + 1;
    }

    /** One pass over the text.  Every turn of the loop advances or hands over to a lower rank. */
    method RunPass() returns (flow: Flow)
      requires Ready() && Paid()
      modifies this, heap
      ensures firstPass == old(firstPass)
      ensures Plain(firstPass, heap.nodes, heap.next, root, alloc)
      ensures !flow.Go?
      ensures flow.Stop? ==> goal.Some? && mode == Done(goal.value) && ctx == Root && Arena()
      ensures flow.Fail? ==> goal.None?
      ensures if flow.Halt? then Stopped() else Paid()
    {
      while true
        invariant Ready() && Paid() && firstPass == old(firstPass)
        decreases |doc.text| - pos, RankOf(mode, remark)
      {
        flow := Turn();
        if !flow.Go? {
          return;
        }
        NextByte();
      }
    }

    /** The variables at the start of a pass. */
    method BeginPass(first: bool)
      requires goal == Document(doc)
      requires if first then heap.nodes == [] && heap.next == []
               else goal.Some? && heap.nodes == Lay(FirstHead, goal.value, None, 0)
                    && heap.next == Chain(Size(goal.value))
      modifies this`firstPass, this`ptr, this`top, this`root, this`alloc, this`flags, this`ctx, this`mode,
          this`remark, this`pos
      ensures Ready() && firstPass == first && alloc == 0
    {
      ghost var i := 0;
      assert Chain(i) == [];
      firstPass := first;
      ClearState(i);
      DocumentStart(doc, ctx, mode, i, goal);
      PassStart(PhaseFor(firstPass, goal), heap.nodes, alloc, top, stringBase, ctx, mode);
    }

    /** The same, without the arena. */
    method ClearState(ghost i: nat)
      requires i == 0
      modifies this`ptr, this`top, this`root, this`alloc, this`flags, this`ctx, this`mode, this`remark, this`pos
      ensures flags == START && alloc == i && top == root == None && ptr == pos == i
      ensures ctx == Root && mode == Seek(false, false) && remark == NoRemark
    {
      alloc, top, root := 0, None, None;
      flags := START;
      ptr := 0;
      ctx, mode, remark, pos := Root, Seek(false, false), NoRemark, i;
    }

    /** The failure exit of the first pass: follow the chain of nodes from the root and free each. */
    method FreeChain()
      requires firstPass && Plain(firstPass, heap.nodes, heap.next, root, alloc)
      modifies this`top, heap`nodes
      ensures |heap.nodes| == old(|heap.nodes|) && AllReleased(heap.nodes)
    {
      var node := root;
      ghost var done := 0;
      while node.Some?
        invariant |heap.nodes| == old(|heap.nodes|) && done <= |heap.nodes|
        invariant node == if done == |heap.nodes| then None else Some(done)
        invariant forall k | 0 <= k < |heap.nodes| ::
                    heap.nodes[k].block == NoBlock && heap.nodes[k].freed == (k < done)
        decreases |heap.nodes| - done
      {
        top := heap.next[node.value];
        heap.FreeNode(node.value);
        node := top;
        done := done + 1;
      }
    }

    /** The first pass with its failure exit: the nodes of the tree are made, or none is left. */
    method MakeNodes() returns (ok: bool)
      requires goal == Document(doc) && heap.nodes == [] && heap.next == []
      requires used == requests == granted == 0 && !overrun
      modifies this, heap
      ensures ok ==> goal.Some? && NodesAffordable(settings, goal.value) && NodeAsk(settings).room
      ensures ok ==> heap.nodes == Lay(FirstHead, goal.value, None, 0) && heap.next == Chain(Size(goal.value))
      ensures ok ==> Solvent(settings, goal, false, 0, used, granted, requests) && !overrun
      ensures !ok && !overrun ==> AllReleased(heap.nodes) && granted == |heap.nodes| * NodeAsk(settings).size
      ensures !ok ==> (settings.maxMemory > 0 ==> granted <= settings.maxMemory)
      ensures !ok && overrun ==> !NodeAsk(settings).room
      ensures !ok && goal.Some? ==>
                && !(Affordable(settings, goal.value) && TreeRoomy(settings, goal.value))
                && granted == Granted(settings, goal.value) && (overrun <==> TreeOverruns(settings, goal.value))
    {
      SolventStart(settings, goal);
      BeginPass(true);
      var flow := RunPass();
      if flow.Stop? {
        PassEnd(PhaseFor(true, goal), heap.nodes, alloc, top, stringBase, goal.value);
        SecondPass(settings, goal.value, used, granted, requests);
        return true;
      }
      if goal.Some? {
        RunStopped(settings, goal.value, true, alloc, granted, overrun);
      } else {
        NodesOnly(settings, alloc, used, granted, requests, overrun, flow.Halt?);
      }
      if !overrun {
        FreeChain();
      }
      return false;
    }

    /** The second pass: the tree is filled in. */
    method FillNodes() returns (ok: bool)
      requires goal == Document(doc) && goal.Some? && Solvent(settings, goal, false, 0, used, granted, requests)
      requires heap.nodes == Lay(FirstHead, goal.value, None, 0) && heap.next == Chain(Size(goal.value)) && !overrun
      modifies this, heap
      ensures ok <==> Affordable(settings, goal.value) && TreeRoomy(settings, goal.value)
      ensures overrun <==> TreeOverruns(settings, goal.value)
      ensures ok ==>
                && root == Some(0) && !overrun && heap.nodes == Lay(FinalHead, goal.value, None, 0)
                && granted == TreeBytes(settings, goal.value)
      ensures granted == Granted(settings, goal.value) && (settings.maxMemory > 0 ==> granted <= settings.maxMemory)
    {
      BeginPass(false);
      var flow := RunPass();
      ok := flow.Stop?;
      if ok {
        PassEnd(PhaseFor(false, goal), heap.nodes, alloc, top, stringBase, goal.value);
        PaidUp(settings, goal.value, used, granted, requests);
      } else {
        RunStopped(settings, goal.value, false, 0, granted, overrun);
      }
    }
  }

  /** json_parse_ex.  `overrun` says that a block was handed out which is too small for what the code writes to it;
      what happens then is not defined. */
  method ParseEx(settings: Options, text: bytes)
    returns (heap: Heap, root: Option<nat>, overrun: bool, ghost granted: nat)
    ensures fresh(heap)
    ensures root.Some? <==>
              var goal := ParseText(text, settings.comments);
              goal.Some? && Affordable(settings, goal.value) && TreeRoomy(settings, goal.value)
    ensures root.Some? ==>
              && root == Some(0) && !overrun
              && heap.nodes == Lay(FinalHead, ParseText(text, settings.comments).value, None, 0)
              && granted == TreeBytes(settings, ParseText(text, settings.comments).value)
    ensures settings.maxMemory > 0 ==> granted <= settings.maxMemory
    ensures match ParseText(text, settings.comments)
            case None =>
              if overrun then !NodeAsk(settings).room
              else AllReleased(heap.nodes) && granted == |heap.nodes| * NodeAsk(settings).size
            case Some(v) =>
              && granted == Granted(settings, v) && (overrun <==> TreeOverruns(settings, v))
              && (!overrun && !NodesAffordable(settings, v) ==>
                    AllReleased(heap.nodes) && granted == |heap.nodes| * NodeAsk(settings).size)
  {
    heap := new Heap();
    var s := new State(settings, text, heap);
    var ok := s.MakeNodes();
    if ok {
      NodesFirst(settings, ParseText(text, settings.comments).value);
      ok := s.FillNodes();
    }
    root, overrun, granted := if ok then s.root else None, s.overrun, s.granted;
  }

  /** json_parse. */
  method Parse(text: bytes, host: Host) returns (heap: Heap, root: Option<nat>, overrun: bool)
    ensures fresh(heap)
    ensures root.Some? <==>
              var goal, o := ParseText(text, false), Options(0, false, 0, host);
              goal.Some? && Affordable(o, goal.value) && TreeRoomy(o, goal.value)
    ensures root.Some? ==>
              root == Some(0) && heap.nodes == Lay(FinalHead, ParseText(text, false).value, None, 0)
    ensures match ParseText(text, false)
            case None => !overrun && AllReleased(heap.nodes)
            case Some(v) =>
              && (overrun <==> TreeOverruns(Bare(host), v))
              && (!overrun && !NodesAffordable(Bare(host), v) ==> AllReleased(heap.nodes))
  {
    ghost var granted;
    heap, root, overrun, granted := ParseEx(Bare(host), text);
  }
}
