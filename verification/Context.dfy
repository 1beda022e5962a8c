/** The open containers around the reading position, and how the remaining text completes them. */
module Context {
  import opened Bytes
  import opened Grammar

  /** The containers that are open, innermost first, each with the items finished so far.  An
      object whose last name still waits for its value has one name more than items. */
  datatype Ctx =
    | Root
    | InArray(items: seq<Json>, outer: Ctx)
    | InObject(names: seq<bytes>, items: seq<Json>, outer: Ctx)

  /** A value may come next: every open object waits for the value of its last name. */
  predicate Pending(ctx: Ctx) {
    match ctx
    case Root => true
    case InArray(_, outer) => Pending(outer)
    case InObject(names, items, outer) => |names| == |items| + 1 && Pending(outer)
  }

  /** The whole tree when value `v`, just read inside `ctx`, ends at position `i`. */
  function Plug(d: Doc, ctx: Ctx, v: Json, i: nat): Option<Json>
    requires i <= |d.text|
    decreases ctx, 0
  {
    match ctx
    case Root => if Trailing(d, i) then Some(v) else None
    case InArray(items, outer) =>
      if |items| + 1 > UINT_LIMIT then None
      else CloseArray(d, outer, Elements(d, i, items + [v], true))
    case InObject(names, items, outer) =>
      if |items| + 1 > UINT_LIMIT then None
      else CloseObject(d, outer, Members(d, i, names, items + [v], true))
  }

  function CloseArray(d: Doc, outer: Ctx, r: Parsed<seq<Json>>): Option<Json>
    requires r.Ok? ==> r.next <= |d.text|
    decreases outer, 1
  {
    if r.Err? then None else Plug(d, outer, JArray(r.value), r.next)
  }

  function CloseObject(d: Doc, outer: Ctx, r: Parsed<(seq<bytes>, seq<Json>)>): Option<Json>
    requires r.Ok? ==> r.next <= |d.text|
    decreases outer, 1
  {
    if r.Err? then None else Plug(d, outer, JObject(r.value.0, r.value.1), r.next)
  }

  function PlugResult(d: Doc, ctx: Ctx, r: Parsed<Json>): Option<Json>
    requires r.Ok? ==> r.next <= |d.text|
  {
    if r.Err? then None else Plug(d, ctx, r.value, r.next)
  }

  // ----- which part of the finished tree a context belongs to -----

  /** The part of `whole` that is being read inside `ctx`, if `ctx` is on the way through it. */
  function Hole(ctx: Ctx, whole: Json): Option<Json>
    decreases ctx
  {
    match ctx
    case Root => Some(whole)
    case InArray(items, outer) =>
      (match Hole(outer, whole)
       case Some(JArray(full)) => if items < full then Some(full[|items|]) else None
       case _ => None)
    case InObject(names, items, outer) =>
      (match Hole(outer, whole)
       case Some(JObject(fullNames, full)) =>
         if names <= fullNames && items < full && |names| == |items| + 1 && |fullNames| == |full|
         then Some(full[|items|]) else None
       case _ => None)
  }

  /** The finished containers that `ctx` will become, as parts of `whole`. */
  predicate OnTrack(ctx: Ctx, whole: Json)
    decreases ctx
  {
    match ctx
    case Root => true
    case InArray(items, outer) =>
      OnTrack(outer, whole) && Hole(outer, whole).Some? && Hole(outer, whole).value.JArray?
      && items <= Hole(outer, whole).value.items
    case InObject(names, items, outer) =>
      OnTrack(outer, whole) && Hole(outer, whole).Some? && Hole(outer, whole).value.JObject?
      && names <= Hole(outer, whole).value.names && items <= Hole(outer, whole).value.items
      && |Hole(outer, whole).value.names| == |Hole(outer, whole).value.items|
  }

  // ----- the remaining text only adds to what has been read -----

  lemma {:induction false} ElementsExtend(d: Doc, i: nat, items: seq<Json>, comma: bool)
    requires i <= |d.text|
    requires Elements(d, i, items, comma).Ok?
    ensures items <= Elements(d, i, items, comma).value
    decreases |d.text| - i
  {
    var j := Skip(d, i).value;
    var b := At(d, j);
    if b == RBRACKET {
    } else if comma {
      ElementsExtend(d, j + 1, items, false);
    } else {
      var v := ValueAt(d, j);
      ElementsExtend(d, v.next, items + [v.value], true);
    }
  }

  lemma {:induction false} MembersExtend(d: Doc, i: nat, names: seq<bytes>, items: seq<Json>, comma: bool)
    requires i <= |d.text| && |names| == |items|
    requires Members(d, i, names, items, comma).Ok?
    ensures var r := Members(d, i, names, items, comma).value;
      names <= r.0 && items <= r.1 && |r.0| == |r.1|
    decreases |d.text| - i, 0
  {
    var j := Skip(d, i).value;
    var b := At(d, j);
    if b == RBRACE {
    } else if b == COMMA {
      MembersExtend(d, j + 1, names, items, false);
    } else {
      var name := Chars(d, j + 1, [], false);
      MemberValueExtend(d, name.next, names + [name.value], items);
    }
  }

  lemma {:induction false} MemberValueExtend(d: Doc, i: nat, names: seq<bytes>, items: seq<Json>)
    requires i <= |d.text| && |names| == |items| + 1
    requires MemberValue(d, i, names, items).Ok?
    ensures var r := MemberValue(d, i, names, items).value;
      names <= r.0 && items <= r.1 && |r.0| == |r.1|
    decreases |d.text| - i, 1
  {
    var k := Skip(d, i).value;
    var v := Value(d, k + 1);
    MembersExtend(d, v.next, names, items + [v.value], true);
  }

  /** If the text completes to `whole`, the context is on the way through `whole` and the value
      just read is the part at its hole. */
  lemma {:induction false} PlugOnTrack(d: Doc, ctx: Ctx, v: Json, i: nat, whole: Json)
    requires i <= |d.text| && Pending(ctx)
    requires Plug(d, ctx, v, i) == Some(whole)
    ensures OnTrack(ctx, whole) && Hole(ctx, whole) == Some(v)
    decreases ctx
  {
    match ctx
    case Root =>
    case InArray(items, outer) =>
      var r := Elements(d, i, items + [v], true);
      ElementsExtend(d, i, items + [v], true);
      PlugOnTrack(d, outer, JArray(r.value), r.next, whole);
    case InObject(names, items, outer) =>
      var r := Members(d, i, names, items + [v], true);
      MembersExtend(d, i, names, items + [v], true);
      PlugOnTrack(d, outer, JObject(r.value.0, r.value.1), r.next, whole);
  }
}
