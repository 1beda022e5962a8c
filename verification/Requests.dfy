/** The service's requests and responses: parse_request, process_json_generic and build_response. */
module Requests {
  import opened Bytes
  import opened Grammar
  import opened Preorder
  import opened Layout
  import opened Styles
  import opened Sizes
  import opened Ledger
  import opened Memory
  import opened Reader
  import opened Writer
  import opened Context
  import opened Progress
  import opened Quotes
  import Destructor
  import Parser

  /** The size of every text field, with its NUL. */
  const FIELD_SIZE := 128

  const ACTION: bytes := [0x61, 0x63, 0x74, 0x69, 0x6F, 0x6E]
  const PARAMETERS: bytes := [0x70, 0x61, 0x72, 0x61, 0x6D, 0x65, 0x74, 0x65, 0x72, 0x73]
  const PROXY_IP: bytes := [0x70, 0x72, 0x6F, 0x78, 0x79, 0x49, 0x70]
  const TAP_DEVICE_NAME: bytes := [0x74, 0x61, 0x70, 0x44, 0x65, 0x76, 0x69, 0x63, 0x65, 0x4E, 0x61, 0x6D, 0x65]
  const TAP_GATEWAY_IP: bytes :=
    [0x74, 0x61, 0x70, 0x44, 0x65, 0x76, 0x69, 0x63, 0x65, 0x47, 0x61, 0x74, 0x65, 0x77, 0x61, 0x79, 0x49, 0x70]
  const IS_AUTO_CONNECT: bytes :=
    [0x69, 0x73, 0x41, 0x75, 0x74, 0x6F, 0x43, 0x6F, 0x6E, 0x6E, 0x65, 0x63, 0x74]
  const STATUS_CODE: bytes := [0x73, 0x74, 0x61, 0x74, 0x75, 0x73, 0x43, 0x6F, 0x64, 0x65]
  const ERROR_MESSAGE: bytes := [0x65, 0x72, 0x72, 0x6F, 0x72, 0x4D, 0x65, 0x73, 0x73, 0x61, 0x67, 0x65]
  const CONNECTION_STATUS: bytes :=
    [0x63, 0x6F, 0x6E, 0x6E, 0x65, 0x63, 0x74, 0x69, 0x6F, 0x6E, 0x53, 0x74, 0x61, 0x74, 0x75, 0x73]

  // ----- what a parsed text means as a request -----

  datatype Fields = Fields(action: bytes, proxyIp: bytes, tapDeviceName: bytes, tapGatewayIp: bytes,
      isAutoConnect: bool)

  const EMPTY := Fields([], [], [], [], false)

  /** The text that strcpy copies from a string value, if it fits the field. */
  function Copied(v: Json): Option<bytes> {
    if v.JString? && |CutAtNul(v.s)| < FIELD_SIZE then Some(CutAtNul(v.s)) else None
  }

  /** One member of the parameters object; None where an assertion fails or a field is too small. */
  function ApplyParameter(f: Fields, name: bytes, v: Json): Option<Fields> {
    if name == PROXY_IP then
      if Copied(v).Some? then Some(f.(proxyIp := Copied(v).value)) else None
    else if name == TAP_DEVICE_NAME then
      if Copied(v).Some? then Some(f.(tapDeviceName := Copied(v).value)) else None
    else if name == TAP_GATEWAY_IP then
      if Copied(v).Some? then Some(f.(tapGatewayIp := Copied(v).value)) else None
    else if name == IS_AUTO_CONNECT then
      if v.JBool? then Some(f.(isAutoConnect := v.b)) else None
    else Some(f)
  }

  /** The first `n` members of the parameters object, in order. */
  function ApplyParameters(f: Fields, names: seq<bytes>, items: seq<Json>, n: nat): Option<Fields>
    requires n <= |names| == |items|
  {
    if n == 0 then Some(f)
    else
      var before := ApplyParameters(f, names, items, n - 1);
      if before.None? then None else ApplyParameter(before.value, CutAtNul(names[n - 1]), items[n - 1])
  }

  /** One member of the request object. */
  function ApplyMember(f: Fields, name: bytes, v: Json): Option<Fields>
    requires WellFormed(v)
  {
    if name == ACTION then
      if Copied(v).Some? then Some(f.(action := Copied(v).value)) else None
    else if name == PARAMETERS then
      if v.JObject? then ApplyParameters(f, v.names, v.items, |v.items|) else None
    else Some(f)
  }

  function ApplyMembers(f: Fields, names: seq<bytes>, items: seq<Json>, n: nat): Option<Fields>
    requires n <= |names| == |items| && forall k | 0 <= k < |items| :: WellFormed(items[k])
  {
    if n == 0 then Some(f)
    else
      var before := ApplyMembers(f, names, items, n - 1);
      if before.None? then None else ApplyMember(before.value, CutAtNul(names[n - 1]), items[n - 1])
  }

  /** The request that a tree stands for. */
  function RequestOf(f: Fields, v: Json): Option<Fields>
    requires WellFormed(v)
  {
    if v.JObject? then ApplyMembers(f, v.names, v.items, |v.items|) else None
  }

  // ----- the request, by the members that are found -----

  /** The value of the last of the first `n` members whose name is `key`, as strcmp reads names. */
  function LastUnder(names: seq<bytes>, items: seq<Json>, n: nat, key: bytes): Option<Json>
    requires n <= |names| == |items|
  {
    if n == 0 then None
    else if CutAtNul(names[n - 1]) == key then Some(items[n - 1])
    else LastUnder(names, items, n - 1, key)
  }

  /** The value of the last member named `key` inside the objects named "parameters" among the first `n` members. */
  function LastInside(names: seq<bytes>, items: seq<Json>, n: nat, key: bytes): Option<Json>
    requires n <= |names| == |items| && forall k | 0 <= k < |items| :: WellFormed(items[k])
  {
    if n == 0 then None
    else
      var v := items[n - 1];
      assert WellFormed(v);
      if CutAtNul(names[n - 1]) == [0x70, 0x61, 0x72, 0x61, 0x6D, 0x65, 0x74, 0x65, 0x72, 0x73] && v.JObject?
         && LastUnder(v.names, v.items, |v.items|, key).Some? then
        LastUnder(v.names, v.items, |v.items|, key)
      else LastInside(names, items, n - 1, key)
  }

  /** A string that strcpy may copy into a field of 128 bytes. */
  predicate FitsField(v: Json) {
    v.JString? && |CutAtNul(v.s)| < 128
  }

  /** A member of the parameters that is taken or ignored: "proxyIp", "tapDeviceName" and "tapDeviceGatewayIp" are
      strings that fit, "isAutoConnect" is a boolean. */
  predicate InnerTaken(name: bytes, v: Json) {
    if name == [0x70, 0x72, 0x6F, 0x78, 0x79, 0x49, 0x70] then FitsField(v)
    else if name == [0x74, 0x61, 0x70, 0x44, 0x65, 0x76, 0x69, 0x63, 0x65, 0x4E, 0x61, 0x6D, 0x65] then FitsField(v)
    else if name == [0x74, 0x61, 0x70, 0x44, 0x65, 0x76, 0x69, 0x63, 0x65,
                     0x47, 0x61, 0x74, 0x65, 0x77, 0x61, 0x79, 0x49, 0x70] then FitsField(v)
    else if name == [0x69, 0x73, 0x41, 0x75, 0x74, 0x6F, 0x43, 0x6F, 0x6E, 0x6E, 0x65, 0x63, 0x74] then v.JBool?
    else true
  }

  predicate InnerAllTaken(v: Json)
    requires WellFormed(v)
  {
    v.JObject? && forall k | 0 <= k < |v.items| :: InnerTaken(CutAtNul(v.names[k]), v.items[k])
  }

  /** A member of the request that is taken or ignored: "action" is a string that fits, "parameters" an object whose
      members are taken or ignored. */
  predicate OuterTaken(name: bytes, v: Json)
    requires WellFormed(v)
  {
    if name == [0x61, 0x63, 0x74, 0x69, 0x6F, 0x6E] then FitsField(v)
    else if name == [0x70, 0x61, 0x72, 0x61, 0x6D, 0x65, 0x74, 0x65, 0x72, 0x73] then InnerAllTaken(v)
    else true
  }

  predicate OuterAllTaken(names: seq<bytes>, items: seq<Json>, n: nat)
    requires n <= |names| == |items| && forall k | 0 <= k < |items| :: WellFormed(items[k])
  {
    forall k | 0 <= k < n :: OuterTaken(CutAtNul(names[k]), items[k])
  }

  function TextOr(v: Option<Json>, old': bytes): bytes {
    if v.Some? && v.value.JString? then CutAtNul(v.value.s) else old'
  }

  function FlagOr(v: Option<Json>, old': bool): bool {
    if v.Some? && v.value.JBool? then v.value.b else old'
  }

  /** `r` is `f` after the first `n` members of a parameters object. */
  predicate InnerIs(f: Fields, names: seq<bytes>, items: seq<Json>, n: nat, r: Fields)
    requires n <= |names| == |items|
  {
    && r.action == f.action
    && r.proxyIp == TextOr(LastUnder(names, items, n, [0x70, 0x72, 0x6F, 0x78, 0x79, 0x49, 0x70]), f.proxyIp)
    && r.tapDeviceName == TextOr(LastUnder(names, items, n,
         [0x74, 0x61, 0x70, 0x44, 0x65, 0x76, 0x69, 0x63, 0x65, 0x4E, 0x61, 0x6D, 0x65]), f.tapDeviceName)
    && r.tapGatewayIp == TextOr(LastUnder(names, items, n,
         [0x74, 0x61, 0x70, 0x44, 0x65, 0x76, 0x69, 0x63, 0x65,
          0x47, 0x61, 0x74, 0x65, 0x77, 0x61, 0x79, 0x49, 0x70]), f.tapGatewayIp)
    && r.isAutoConnect == FlagOr(LastUnder(names, items, n,
         [0x69, 0x73, 0x41, 0x75, 0x74, 0x6F, 0x43, 0x6F, 0x6E, 0x6E, 0x65, 0x63, 0x74]), f.isAutoConnect)
  }

  /** `r` is `f` after the first `n` members of a request: every field is the last member found under its name, up
      to its NUL, or what it was. */
  predicate OuterIs(f: Fields, names: seq<bytes>, items: seq<Json>, n: nat, r: Fields)
    requires n <= |names| == |items| && forall k | 0 <= k < |items| :: WellFormed(items[k])
  {
    && r.action == TextOr(LastUnder(names, items, n, [0x61, 0x63, 0x74, 0x69, 0x6F, 0x6E]), f.action)
    && r.proxyIp == TextOr(LastInside(names, items, n, [0x70, 0x72, 0x6F, 0x78, 0x79, 0x49, 0x70]), f.proxyIp)
    && r.tapDeviceName == TextOr(LastInside(names, items, n,
         [0x74, 0x61, 0x70, 0x44, 0x65, 0x76, 0x69, 0x63, 0x65, 0x4E, 0x61, 0x6D, 0x65]), f.tapDeviceName)
    && r.tapGatewayIp == TextOr(LastInside(names, items, n,
         [0x74, 0x61, 0x70, 0x44, 0x65, 0x76, 0x69, 0x63, 0x65,
          0x47, 0x61, 0x74, 0x65, 0x77, 0x61, 0x79, 0x49, 0x70]), f.tapGatewayIp)
    && r.isAutoConnect == FlagOr(LastInside(names, items, n,
         [0x69, 0x73, 0x41, 0x75, 0x74, 0x6F, 0x43, 0x6F, 0x6E, 0x6E, 0x65, 0x63, 0x74]), f.isAutoConnect)
  }

  /** The first `n` members of a parameters object. */
  lemma {:induction false} ParametersAre(f: Fields, names: seq<bytes>, items: seq<Json>, n: nat)
    requires n <= |names| == |items|
    ensures ApplyParameters(f, names, items, n).Some?
            <==> forall k | 0 <= k < n :: InnerTaken(CutAtNul(names[k]), items[k])
    ensures ApplyParameters(f, names, items, n).Some? ==>
              InnerIs(f, names, items, n, ApplyParameters(f, names, items, n).value)
    decreases n
  {
    if n > 0 {
      ParametersAre(f, names, items, n - 1);
      var before, name, v := ApplyParameters(f, names, items, n - 1), CutAtNul(names[n - 1]), items[n - 1];
      if before.Some? {
        ParameterIs(f, names, items, n, before.value, name, v);
      }
    }
  }

  /** One more member. */
  lemma {:induction false} ParameterIs(
    f: Fields, names: seq<bytes>, items: seq<Json>, n: nat, before: Fields, name: bytes, v: Json)
    requires 0 < n <= |names| == |items| && name == CutAtNul(names[n - 1]) && v == items[n - 1]
    requires InnerIs(f, names, items, n - 1, before)
    ensures ApplyParameter(before, name, v).Some? <==> InnerTaken(name, v)
    ensures ApplyParameter(before, name, v).Some? ==>
              InnerIs(f, names, items, n, ApplyParameter(before, name, v).value)
  {
  }

  /** What is found under a name is taken under it. */
  lemma {:induction false} FoundTaken(names: seq<bytes>, items: seq<Json>, n: nat, key: bytes)
    requires n <= |names| == |items| && forall k | 0 <= k < n :: InnerTaken(CutAtNul(names[k]), items[k])
    ensures LastUnder(names, items, n, key).Some? ==> InnerTaken(key, LastUnder(names, items, n, key).value)
    decreases n
  {
    if n > 0 && CutAtNul(names[n - 1]) != key {
      FoundTaken(names, items, n - 1, key);
    }
  }

  /** The members of one parameters object, after those of the objects before it. */
  lemma {:induction false} InsideNext(
    f: Fields, names: seq<bytes>, items: seq<Json>, n: nat, before: Fields, v: Json, r: Fields)
    requires 0 < n <= |names| == |items| && forall k | 0 <= k < |items| :: WellFormed(items[k])
    requires OuterIs(f, names, items, n - 1, before) && v == items[n - 1]
    requires CutAtNul(names[n - 1]) == PARAMETERS && InnerAllTaken(v) && InnerIs(before, v.names, v.items, |v.items|, r)
    ensures OuterIs(f, names, items, n, r)
  {
    FoundTaken(v.names, v.items, |v.items|, PROXY_IP);
    FoundTaken(v.names, v.items, |v.items|, TAP_DEVICE_NAME);
    FoundTaken(v.names, v.items, |v.items|, TAP_GATEWAY_IP);
    FoundTaken(v.names, v.items, |v.items|, IS_AUTO_CONNECT);
  }

  /** The first `n` members of a request. */
  lemma {:induction false} MembersAre(f: Fields, names: seq<bytes>, items: seq<Json>, n: nat)
    requires n <= |names| == |items| && forall k | 0 <= k < |items| :: WellFormed(items[k])
    ensures ApplyMembers(f, names, items, n).Some? <==> OuterAllTaken(names, items, n)
    ensures ApplyMembers(f, names, items, n).Some? ==>
              OuterIs(f, names, items, n, ApplyMembers(f, names, items, n).value)
    decreases n
  {
    if n > 0 {
      MembersAre(f, names, items, n - 1);
      var before, name, v := ApplyMembers(f, names, items, n - 1), CutAtNul(names[n - 1]), items[n - 1];
      if before.Some? && name == PARAMETERS {
        if v.JObject? {
          ParametersAre(before.value, v.names, v.items, |v.items|);
          if InnerAllTaken(v) {
            InsideNext(f, names, items, n, before.value, v, ApplyMember(before.value, name, v).value);
          }
        }
      }
    }
  }

  /** For every tree: the request is taken exactly when the tree is an object all of whose members are taken or
      ignored, and then every field is the last member found under its name, or what it was. */
  lemma {:induction false} RequestIs(f: Fields, v: Json)
    requires WellFormed(v)
    ensures RequestOf(f, v).Some? <==> v.JObject? && OuterAllTaken(v.names, v.items, |v.items|)
    ensures RequestOf(f, v).Some? ==> OuterIs(f, v.names, v.items, |v.items|, RequestOf(f, v).value)
  {
    if v.JObject? {
      MembersAre(f, v.names, v.items, |v.items|);
    }
  }

  // ----- process_json_generic -----

  /** Value `v` is laid out at node `k`. */
  ghost predicate LaidAt(nodes: seq<Node>, v: Json, parent: Option<nat>, k: nat) {
    Within(Lay(FinalHead, v, parent, k), nodes, k)
  }

  lemma NodeIs(nodes: seq<Node>, v: Json, parent: Option<nat>, k: nat)
    requires LaidAt(nodes, v, parent, k)
    ensures k < |nodes| && nodes[k] == FinalHead(v, parent, k) && !nodes[k].freed
  {
    var part := Lay(FinalHead, v, parent, k);
    assert nodes[k] == nodes[k..k + |part|][0] == part[0];
  }

  /** The name and the value of member `x` of an object, as the pointers give them. */
  lemma MemberAt(nodes: seq<Node>, v: Json, parent: Option<nat>, k: nat, x: nat) returns (c: nat)
    requires LaidAt(nodes, v, parent, k) && v.JObject? && |v.names| == |v.items| && x < |v.items|
    ensures k < |nodes| && nodes[k] == FinalHead(v, parent, k)
    ensures NameOf(nodes[k], x) == Some(CutAtNul(v.names[x]))
    ensures LinkOf(nodes[k], x) == Some(c) && LaidAt(nodes, v.items[x], Some(k), c)
  {
    NodeIs(nodes, v, parent, k);
    c := k + 1 + SizeAll(v.items[..x]);
    ItemNodes(nodes, v, parent, k, Lay(FinalHead, v, parent, k), x, c, Lay(FinalHead, v.items[x], Some(k), c));
    SlotAt(v.names, v.items, x, k + 1);
    NameCellAt(v.names, x);
    TerminatedAt(NameArea(v.names), NameBytes(v.names[..x]), v.names[x]);
  }

  lemma StringAt(nodes: seq<Node>, v: Json, parent: Option<nat>, k: nat)
    requires LaidAt(nodes, v, parent, k)
    ensures k < |nodes| && !nodes[k].freed && (nodes[k].kind == KString <==> v.JString?)
    ensures v.JString? ==> nodes[k].block.Text? && Terminated(nodes[k].block.chars, 0) == Some(CutAtNul(v.s))
  {
    NodeIs(nodes, v, parent, k);
    if v.JString? {
      TerminatedAt(nodes[k].block.chars, 0, v.s);
    }
  }

  /** A request as the service keeps it: text fields of fixed size, all empty at first. */
  class Request {
    var action: bytes
    var proxyIp: bytes
    var tapDeviceName: bytes
    var tapGatewayIp: bytes
    var isAutoConnect: bool

    constructor ()
      ensures Value() == EMPTY
      ensures action == proxyIp == tapDeviceName == tapGatewayIp == [] && !isAutoConnect
    {
      action, proxyIp, tapDeviceName, tapGatewayIp, isAutoConnect := [], [], [], [], false;
    }

    function Value(): Fields
      reads this
    {
      Fields(action, proxyIp, tapDeviceName, tapGatewayIp, isAutoConnect)
    }

    /** strcpy from the string at node `k`, asserted to be one. */
    method CopyString(heap: Heap, k: nat, ghost v: Json, ghost parent: Option<nat>) returns (r: Option<bytes>)
      requires LaidAt(heap.nodes, v, parent, k)
      ensures r == Copied(v)
    {
      StringAt(heap.nodes, v, parent, k);
      var n := heap.Get(k);
      if n.kind != KString {
        return None;
      }
      r := Terminated(n.block.chars, 0);
      if |r.value| >= FIELD_SIZE {
        r := None;
      }
    }

    /** One member of the parameters object. */
    method TakeParameter(heap: Heap, name: bytes, k: nat, ghost v: Json, ghost parent: Option<nat>) returns (ok: bool)
      requires LaidAt(heap.nodes, v, parent, k)
      modifies this
      ensures ok <==> ApplyParameter(old(Value()), name, v).Some?
      ensures ok ==> Value() == ApplyParameter(old(Value()), name, v).value
    {
      NodeIs(heap.nodes, v, parent, k);
      ok := true;
      if name == PROXY_IP || name == TAP_DEVICE_NAME || name == TAP_GATEWAY_IP {
        var t := CopyString(heap, k, v, parent);
        if t.None? {
          return false;
        }
        if name == PROXY_IP {
          proxyIp := t.value;
        } else if name == TAP_DEVICE_NAME {
          tapDeviceName := t.value;
        } else {
          tapGatewayIp := t.value;
        }
      } else if name == IS_AUTO_CONNECT {
        if heap.Get(k).kind != KBoolean {
          return false;
        }
        isAutoConnect := heap.Get(k).flag;
      }
    }

    /** The inner loop: the members of the parameters object at node `k`. */
    method TakeParameters(heap: Heap, k: nat, ghost v: Json, ghost parent: Option<nat>) returns (ok: bool)
      requires LaidAt(heap.nodes, v, parent, k) && v.JObject? && WellFormed(v)
      modifies this
      ensures ok <==> ApplyParameters(old(Value()), v.names, v.items, |v.items|).Some?
      ensures ok ==> Value() == ApplyParameters(old(Value()), v.names, v.items, |v.items|).value
    {
      NodeIs(heap.nodes, v, parent, k);
      var length, y := heap.Get(k).length, 0;
      while y < length
        invariant y <= length == |v.items|
        invariant ApplyParameters(old(Value()), v.names, v.items, y) == Some(Value())
      {
        ghost var at := MemberAt(heap.nodes, v, parent, k, y);
        var n := heap.Get(k);
        ok := TakeParameter(heap, NameOf(n, y).value, LinkOf(n, y).value, v.items[y], Some(k));
        y := y + 1;
        if !ok {
          Undefined(old(Value()), v.names, v.items, y, |v.items|);
          return;
        }
      }
      ok := true;
    }

    /** One member of the request object. */
    method TakeMember(heap: Heap, name: bytes, k: nat, ghost v: Json, ghost parent: Option<nat>) returns (ok: bool)
      requires LaidAt(heap.nodes, v, parent, k) && WellFormed(v)
      modifies this
      ensures ok <==> ApplyMember(old(Value()), name, v).Some?
      ensures ok ==> Value() == ApplyMember(old(Value()), name, v).value
    {
      NodeIs(heap.nodes, v, parent, k);
      ok := true;
      if name == ACTION {
        var t := CopyString(heap, k, v, parent);
        if t.None? {
          return false;
        }
        action := t.value;
      } else if name == PARAMETERS {
        if heap.Get(k).kind != KObject {
          return false;
        }
        ok := TakeParameters(heap, k, v, parent);
      }
    }

    /** The outer loop: the members of the root object. */
    method TakeMembers(heap: Heap, ghost v: Json) returns (ok: bool)
      requires LaidAt(heap.nodes, v, None, 0) && v.JObject? && WellFormed(v)
      modifies this
      ensures ok <==> ApplyMembers(old(Value()), v.names, v.items, |v.items|).Some?
      ensures ok ==> Value() == ApplyMembers(old(Value()), v.names, v.items, |v.items|).value
    {
      NodeIs(heap.nodes, v, None, 0);
      var length, x := heap.Get(0).length, 0;
      while x < length
        invariant x <= length == |v.items|
        invariant ApplyMembers(old(Value()), v.names, v.items, x) == Some(Value())
      {
        ghost var at := MemberAt(heap.nodes, v, None, 0, x);
        var n := heap.Get(0);
        ok := TakeMember(heap, NameOf(n, x).value, LinkOf(n, x).value, v.items[x], Some(0));
        x := x + 1;
        if !ok {
          UndefinedMembers(old(Value()), v.names, v.items, x, |v.items|);
          return;
        }
      }
      ok := true;
    }

    /** process_json_generic: the members of the root object, each taken in turn.  A false result stands for
        a failed assertion or a text longer than its field. */
    method Take(heap: Heap, ghost v: Json) returns (ok: bool)
      requires WellFormed(v) && heap.nodes == Lay(FinalHead, v, None, 0)
      modifies this
      ensures ok <==> RequestOf(old(Value()), v).Some?
      ensures ok ==> Value() == RequestOf(old(Value()), v).value
      ensures ok <==> v.JObject? && OuterAllTaken(v.names, v.items, |v.items|)
      ensures ok ==> OuterIs(old(Value()), v.names, v.items, |v.items|, Value())
    {
      RequestIs(Value(), v);
      assert heap.nodes[0..0 + |heap.nodes|] == heap.nodes;
      NodeIs(heap.nodes, v, None, 0);
      if heap.Get(0).kind != KObject {
        return false;
      }
      ok := TakeMembers(heap, v);
    }
  }

  lemma {:induction false} Undefined(f: Fields, names: seq<bytes>, items: seq<Json>, n: nat, m: nat)
    requires n <= m <= |names| == |items| && ApplyParameters(f, names, items, n).None?
    ensures ApplyParameters(f, names, items, m).None?
    decreases m - n
  {
    if n < m {
      Undefined(f, names, items, n, m - 1);
    }
  }

  lemma {:induction false} UndefinedMembers(f: Fields, names: seq<bytes>, items: seq<Json>, n: nat, m: nat)
    requires n <= m <= |names| == |items| && forall k | 0 <= k < |items| :: WellFormed(items[k])
    requires ApplyMembers(f, names, items, n).None?
    ensures ApplyMembers(f, names, items, m).None?
    decreases m - n
  {
    if n < m {
      UndefinedMembers(f, names, items, n, m - 1);
    }
  }

  /** parse_request: parse the text, take the request from its tree, free the tree.  A text that does not
      parse, or whose tree there is no memory for, leaves the request as it is.  A false result stands for a run
      into undefined behaviour, in taking the request or in a block that is too small. */
  method ParseRequest(text: bytes, host: Host, request: Request) returns (ok: bool, heap: Heap)
    modifies request
    ensures match ParseText(text, false)
            case None => ok && request.Value() == old(request.Value()) && AllReleased(heap.nodes)
            case Some(v) =>
              if TreeOverruns(Bare(host), v) then !ok
              else if Affordable(Bare(host), v) then
                && WellFormed(v)
                && (ok <==> RequestOf(old(request.Value()), v).Some?)
                && (ok ==> request.Value() == RequestOf(old(request.Value()), v).value && AllReleased(heap.nodes))
                && (ok <==> v.JObject? && OuterAllTaken(v.names, v.items, |v.items|))
                && (ok ==> OuterIs(old(request.Value()), v.names, v.items, |v.items|, request.Value()))
              else
                && ok && request.Value() == old(request.Value())
                && (NodesAffordable(Bare(host), v) || AllReleased(heap.nodes))
  {
    ghost var v := ParseText(text, false);
    if v.Some? {
      ParsedWellFormed(text, false);
      OverrunsExactly(Bare(host), v.value);
    }
    var root, overrun;
    heap, root, overrun := Parser.Parse(text, host);
    ok := !overrun;
    if root.Some? {
      ok := request.Take(heap, v.value);
      if ok {
        Destructor.FreeTree(heap, root, v.value);
      }
    }
  }

  // ----- a request, written and taken -----

  /** The object with the names "action" and "parameters", and in it "proxyIp", "tapDeviceName", "tapDeviceGatewayIp"
      and "isAutoConnect". */
  function RequestObject(r: Fields): Json {
    JObject([[0x61, 0x63, 0x74, 0x69, 0x6F, 0x6E],
             [0x70, 0x61, 0x72, 0x61, 0x6D, 0x65, 0x74, 0x65, 0x72, 0x73]],
            [JString(r.action),
             JObject([[0x70, 0x72, 0x6F, 0x78, 0x79, 0x49, 0x70],
                      [0x74, 0x61, 0x70, 0x44, 0x65, 0x76, 0x69, 0x63, 0x65, 0x4E, 0x61, 0x6D, 0x65],
                      [0x74, 0x61, 0x70, 0x44, 0x65, 0x76, 0x69, 0x63, 0x65,
                       0x47, 0x61, 0x74, 0x65, 0x77, 0x61, 0x79, 0x49, 0x70],
                      [0x69, 0x73, 0x41, 0x75, 0x74, 0x6F, 0x43, 0x6F, 0x6E, 0x6E, 0x65, 0x63, 0x74]],
                     [JString(r.proxyIp), JString(r.tapDeviceName), JString(r.tapGatewayIp), JBool(r.isAutoConnect)])])
  }

  predicate Shorter(t: bytes) {
    0x00 !in t && |t| < 128
  }

  /** Texts without NULs that fit their fields. */
  predicate Sendable(r: Fields) {
    Shorter(r.action) && Shorter(r.proxyIp) && Shorter(r.tapDeviceName) && Shorter(r.tapGatewayIp)
  }

  lemma {:induction false} WholeNames(names: seq<bytes>)
    requires forall k | 0 <= k < |names| :: NUL !in names[k]
    ensures forall k | 0 <= k < |names| :: CutAtNul(names[k]) == names[k]
  {
    forall k | 0 <= k < |names| ensures CutAtNul(names[k]) == names[k] {
      CutAtNulSame(names[k]);
    }
  }

  lemma CleanNames(names: seq<bytes>)
    requires names == [ACTION, PARAMETERS] || names == [PROXY_IP, TAP_DEVICE_NAME, TAP_GATEWAY_IP, IS_AUTO_CONNECT]
    ensures forall k | 0 <= k < |names| :: NUL !in names[k]
  {
  }

  /** A string in a field of the request. */
  lemma SentText(t: bytes)
    requires Shorter(t)
    ensures Copied(JString(t)) == Some(t)
  {
    CutAtNulSame(t);
  }

  lemma {:induction false} SentParameters(f: Fields, r: Fields, names: seq<bytes>, items: seq<Json>)
    requires Sendable(r) && names == [PROXY_IP, TAP_DEVICE_NAME, TAP_GATEWAY_IP, IS_AUTO_CONNECT]
    requires items == [JString(r.proxyIp), JString(r.tapDeviceName), JString(r.tapGatewayIp), JBool(r.isAutoConnect)]
    ensures ApplyParameters(f, names, items, 4) == Some(r.(action := f.action))
  {
    CleanNames(names);
    WholeNames(names);
    SentText(r.proxyIp);
    SentText(r.tapDeviceName);
    SentText(r.tapGatewayIp);
    DistinctParameters();
    var f1 := f.(proxyIp := r.proxyIp);
    var f2 := f1.(tapDeviceName := r.tapDeviceName);
    var f3 := f2.(tapGatewayIp := r.tapGatewayIp);
    assert ApplyParameters(f, names, items, 0) == Some(f);
    SentParameter(f, names, items, 0, f, f1);
    SentParameter(f, names, items, 1, f1, f2);
    SentParameter(f, names, items, 2, f2, f3);
    SentParameter(f, names, items, 3, f3, r.(action := f.action));
  }

  lemma DistinctParameters()
    ensures PROXY_IP != TAP_DEVICE_NAME && PROXY_IP != TAP_GATEWAY_IP && PROXY_IP != IS_AUTO_CONNECT
    ensures TAP_DEVICE_NAME != TAP_GATEWAY_IP && TAP_DEVICE_NAME != IS_AUTO_CONNECT
    ensures TAP_GATEWAY_IP != IS_AUTO_CONNECT
  {
    assert TAP_DEVICE_NAME[0] != IS_AUTO_CONNECT[0];
  }

  lemma SentParameter(f: Fields, names: seq<bytes>, items: seq<Json>, n: nat, before: Fields, after: Fields)
    requires n < |names| == |items| && ApplyParameters(f, names, items, n) == Some(before)
    requires CutAtNul(names[n]) == names[n] && ApplyParameter(before, names[n], items[n]) == Some(after)
    ensures ApplyParameters(f, names, items, n + 1) == Some(after)
  {
  }

  lemma {:induction false} SentMembers(r: Fields, names: seq<bytes>, items: seq<Json>)
    requires Sendable(r) && names == [ACTION, PARAMETERS] && |items| == 2
    requires items[0] == JString(r.action) && items[1] == RequestObject(r).items[1]
    requires forall k | 0 <= k < |items| :: WellFormed(items[k])
    ensures ApplyMembers(EMPTY, names, items, 2) == Some(r)
  {
    CleanNames(names);
    WholeNames(names);
    SentText(r.action);
    assert ApplyMembers(EMPTY, names, items, 0) == Some(EMPTY);
    assert ApplyMembers(EMPTY, names, items, 1) == Some(EMPTY.(action := r.action));
    SentParameters(EMPTY.(action := r.action), r, items[1].names, items[1].items);
  }

  /** A request that is written is read back, and taken as it was. */
  lemma {:induction false} RequestReads(r: Fields, v: Json)
    requires Sendable(r) && v == RequestObject(r)
    ensures WellFormed(v) && RequestOf(EMPTY, v) == Some(r)
    ensures Writable(v) && ParseText(Write(v), false) == Some(v)
  {
    RequestWritable(r, v);
    WriteParses(v, false);
    SentMembers(r, v.names, v.items);
  }

  lemma {:induction false} RequestWritable(r: Fields, v: Json)
    requires Sendable(r) && v == RequestObject(r)
    ensures WellFormed(v) && Writable(v)
  {
    assert WellFormed(v.items[1]) && Writable(v.items[1]);
  }

  /** The written request goes through parse_request: whenever there is memory for its tree and no size of it
      overruns, exactly its fields are taken. */
  method TakeWritten(r: Fields, host: Host) returns (ok: bool, request: Request)
    requires Sendable(r)
    requires Affordable(Bare(host), RequestObject(r)) && !TreeOverruns(Bare(host), RequestObject(r))
    ensures ok && request.action == r.action && request.proxyIp == r.proxyIp
    ensures request.tapDeviceName == r.tapDeviceName && request.tapGatewayIp == r.tapGatewayIp
    ensures request.isAutoConnect == r.isAutoConnect
  {
    var v := RequestObject(r);
    RequestReads(r, v);
    request := new Request();
    var heap;
    ok, heap := ParseRequest(Write(v), host, request);
  }

  // ----- build_response -----

  const SEPARATOR: bytes := [COMMA, SPACE]
  const TAIL: bytes := [SPACE, RBRACE]

  /** One member as it is printed: a quoted name, a colon, perhaps a space, and the text of the value. */
  function Printed(name: bytes, gap: bytes, value: bytes): bytes {
    (Quoted(name) + [COLON]) + (gap + value)
  }

  function PrintFrom4(): bytes {
    SEPARATOR + (Printed(CONNECTION_STATUS, [], [ZERO]) + TAIL)
  }

  function PrintFrom3(msg: bytes): bytes {
    SEPARATOR + (Printed(ERROR_MESSAGE, [SPACE], Quoted(msg)) + PrintFrom4())
  }

  function PrintFrom2(code: int, msg: bytes): bytes {
    SEPARATOR + (Printed(STATUS_CODE, [SPACE], IntegerText(code)) + PrintFrom3(msg))
  }

  /** The text that build_response prints. */
  function BuildResponse(action: bytes, code: int, msg: bytes): bytes {
    [LBRACE] + (Printed(ACTION, [], Quoted(action)) + PrintFrom2(code, msg))
  }

  /** The object that the response stands for, with the names "action", "statusCode", "errorMessage" and
      "connectionStatus". */
  function ResponseObject(action: bytes, code: int, msg: bytes): Json {
    JObject([[0x61, 0x63, 0x74, 0x69, 0x6F, 0x6E],
             [0x73, 0x74, 0x61, 0x74, 0x75, 0x73, 0x43, 0x6F, 0x64, 0x65],
             [0x65, 0x72, 0x72, 0x6F, 0x72, 0x4D, 0x65, 0x73, 0x73, 0x61, 0x67, 0x65],
             [0x63, 0x6F, 0x6E, 0x6E, 0x65, 0x63, 0x74, 0x69, 0x6F, 0x6E, 0x53, 0x74, 0x61, 0x74, 0x75, 0x73]],
            [JString(action), JInteger(code), JString(msg), JInteger(0)])
  }

  /** A value that can be printed without escapes. */
  predicate Printable(v: Json) {
    || (v.JString? && PlainText(v.s) && |v.s| <= UINT_LIMIT)
    || (v.JInteger? && -0x8000_0000_0000_0000 <= v.n < 0x8000_0000_0000_0000)
  }

  function ValueText(v: Json): bytes
    requires Printable(v)
  {
    if v.JString? then Quoted(v.s) else IntegerText(v.n)
  }

  lemma {:induction false} ValueTextReads(d: Doc, i: nat, v: Json, end: nat)
    requires Printable(v) && TextAt(d, i, ValueText(v)) && end == i + |ValueText(v)| && Stops(d, end)
    ensures i < end <= |d.text| && Begins(d.text[i]) && ValueAt(d, i) == Ok(v, end)
  {
    if v.JString? {
      PlainReads(d, i, v.s, end);
    } else {
      ValueReads(d, i, v, end);
      ValueStart(v);
      StartsAt(d, i, ValueText(v));
    }
  }

  /** The name, the colon and the gap of a printed member. */
  lemma {:induction false} TitleParts(
    d: Doc, p: nat, name: bytes, gap: bytes, value: bytes, c: nat, q: nat)
    requires PlainText(name) && |name| <= UINT_LIMIT && (gap == [] || gap == [SPACE])
    requires TextAt(d, p, Printed(name, gap, value)) && c == p + |name| + 3 && q == c + |gap|
    ensures p < c - 1 < |d.text| && d.text[p] == QUOTE && Chars(d, p + 1, [], false) == Ok(name, c - 1)
    ensures d.text[c - 1] == COLON && TextAt(d, q, value) && (gap == [SPACE] ==> c < |d.text| && d.text[c] == SPACE)
  {
    TextParts(d, p, Quoted(name) + [COLON], gap + value, c);
    TextParts(d, p, Quoted(name), [COLON], c - 1);
    PlainReads(d, p, name, c - 1);
    StartsAt(d, c - 1, [COLON]);
    TextParts(d, c, gap, value, q);
    if |gap| > 0 {
      StartsAt(d, c, gap);
    }
  }

  /** White space before a value is skipped. */
  lemma {:induction false} GapSkips(d: Doc, c: nat, gap: bytes, q: nat)
    requires q == c + |gap| && q < |d.text| && Begins(d.text[q])
    requires gap == [] || (gap == [SPACE] && d.text[c] == SPACE)
    ensures Skip(d, c) == Some(q)
  {
    assert Skip(d, q) == Some(q);
  }

  /** A printed member is read back as one more member. */
  lemma {:induction false} PrintedReads(
    d: Doc, p: nat, names: seq<bytes>, items: seq<Json>, name: bytes, gap: bytes, v: Json, end: nat, names': seq<bytes>,
    items': seq<Json>)
    requires PlainText(name) && |name| <= UINT_LIMIT && |items| < UINT_LIMIT
    requires Printable(v) && (gap == [] || gap == [SPACE])
    requires TextAt(d, p, Printed(name, gap, ValueText(v))) && end == p + |Printed(name, gap, ValueText(v))|
    requires Stops(d, end) && names' == names + [name] && items' == items + [v]
    ensures p < |d.text| && end <= |d.text|
    ensures Members(d, p, names, items, false) == Members(d, end, names', items', true)
  {
    var c := p + |name| + 3;
    var q := c + |gap|;
    TitleParts(d, p, name, gap, ValueText(v), c, q);
    ValueTextReads(d, q, v, end);
    GapSkips(d, c, gap, q);
    NameStep(d, p, names, items, name, c - 1);
    ColonStep(d, c - 1, names', items, q, v, end);
  }

  lemma {:induction false} SeparatorReads(d: Doc, i: nat, rest: bytes, names: seq<bytes>, items: seq<Json>, j: nat)
    requires TextAt(d, i, SEPARATOR + rest) && j == i + 2
    ensures TextAt(d, j, rest) && j <= |d.text| && Stops(d, i)
    ensures Members(d, i, names, items, true) == Members(d, j, names, items, false)
  {
    TextParts(d, i, SEPARATOR, rest, j);
    TextIs(d, i, SEPARATOR);
    assert d.text[i] == d.text[i..i + 2][0] == COMMA && d.text[i + 1] == d.text[i..i + 2][1] == SPACE;
    MemberComma(d, i, names, items);
    assert Skip(d, i + 1) == Skip(d, j);
  }

  lemma {:induction false} TailReads(d: Doc, i: nat, names: seq<bytes>, items: seq<Json>)
    requires TextAt(d, i, TAIL)
    ensures i + 2 <= |d.text| && Stops(d, i) && Members(d, i, names, items, true) == Ok((names, items), i + 2)
  {
    TextIs(d, i, TAIL);
    assert d.text[i] == d.text[i..i + 2][0] == SPACE && d.text[i + 1] == d.text[i..i + 2][1] == RBRACE;
    assert Skip(d, i) == Skip(d, i + 1) == Some(i + 1);
  }

  /** The member printed at `p`, then whatever is printed after it. */
  lemma {:induction false} PrintedThen(
    d: Doc, p: nat, names: seq<bytes>, items: seq<Json>, name: bytes, gap: bytes, v: Json, rest: bytes, end: nat,
    names': seq<bytes>, items': seq<Json>)
    requires PlainText(name) && |name| <= UINT_LIMIT && |items| < UINT_LIMIT
    requires Printable(v) && (gap == [] || gap == [SPACE])
    requires TextAt(d, p, Printed(name, gap, ValueText(v)) + rest) && end == p + |Printed(name, gap, ValueText(v))|
    requires SEPARATOR <= rest || TAIL <= rest
    requires names' == names + [name] && items' == items + [v]
    ensures p <= |d.text| && end <= |d.text| && TextAt(d, end, rest)
    ensures Members(d, p, names, items, false) == Members(d, end, names', items', true)
  {
    TextParts(d, p, Printed(name, gap, ValueText(v)), rest, end);
    StartsAt(d, end, rest);
    PrintedReads(d, p, names, items, name, gap, v, end, names', items');
  }

  lemma PlainConstants()
    ensures PlainText(ACTION) && PlainText(STATUS_CODE) && PlainText(ERROR_MESSAGE) && PlainText(CONNECTION_STATUS)
  {
  }

  /** A separator and the member printed after it. */
  lemma {:induction false} NextReads(
    d: Doc, p: nat, names: seq<bytes>, items: seq<Json>, name: bytes, gap: bytes, v: Json, rest: bytes, end: nat,
    names': seq<bytes>, items': seq<Json>)
    requires PlainText(name) && |name| <= UINT_LIMIT && |items| < UINT_LIMIT
    requires Printable(v) && (gap == [] || gap == [SPACE])
    requires TextAt(d, p, SEPARATOR + (Printed(name, gap, ValueText(v)) + rest))
    requires end == p + 2 + |Printed(name, gap, ValueText(v))| && (SEPARATOR <= rest || TAIL <= rest)
    requires names' == names + [name] && items' == items + [v]
    ensures p <= |d.text| && end <= |d.text| && TextAt(d, end, rest)
    ensures Members(d, p, names, items, true) == Members(d, end, names', items', true)
  {
    SeparatorReads(d, p, Printed(name, gap, ValueText(v)) + rest, names, items, p + 2);
    PrintedThen(d, p + 2, names, items, name, gap, v, rest, end, names', items');
  }

  /** The last member and the closing brace. */
  lemma {:induction false} LastReads(d: Doc, p: nat, names: seq<bytes>, items: seq<Json>, names': seq<bytes>,
      items': seq<Json>, end: nat)
    requires |items| == 3 && TextAt(d, p, PrintFrom4()) && end == p + |PrintFrom4()|
    requires names' == names + [CONNECTION_STATUS] && items' == items + [JInteger(0)]
    ensures p <= |d.text| && Members(d, p, names, items, true) == Ok((names', items'), end)
  {
    PlainConstants();
    NextReads(d, p, names, items, CONNECTION_STATUS, [], JInteger(0), TAIL, end - 2, names', items');
    TailReads(d, end - 2, names', items');
  }

  /** The third member. */
  lemma {:induction false} ThirdReads(d: Doc, p: nat, names: seq<bytes>, items: seq<Json>, msg: bytes,
      names': seq<bytes>, items': seq<Json>, q: nat)
    requires PlainText(msg) && |msg| <= UINT_LIMIT && |items| == 2
    requires TextAt(d, p, PrintFrom3(msg)) && q == p + 2 + |Printed(ERROR_MESSAGE, [SPACE], Quoted(msg))|
    requires names' == names + [ERROR_MESSAGE] && items' == items + [JString(msg)]
    ensures p <= |d.text| && q <= |d.text| && TextAt(d, q, PrintFrom4())
    ensures Members(d, p, names, items, true) == Members(d, q, names', items', true)
  {
    PlainConstants();
    NextReads(d, p, names, items, ERROR_MESSAGE, [SPACE], JString(msg), PrintFrom4(), q, names', items');
  }

  /** The last two members and the closing brace. */
  lemma {:induction false} EndReads(d: Doc, p: nat, names: seq<bytes>, items: seq<Json>, msg: bytes,
      names': seq<bytes>, items': seq<Json>, q: nat, end: nat)
    requires PlainText(msg) && |msg| <= UINT_LIMIT && |items| == 2 && TextAt(d, p, PrintFrom3(msg))
    requires q == p + 2 + |Printed(ERROR_MESSAGE, [SPACE], Quoted(msg))| && end == q + |PrintFrom4()|
    requires names' == names + [ERROR_MESSAGE, CONNECTION_STATUS] && items' == items + [JString(msg), JInteger(0)]
    ensures p <= |d.text| && Members(d, p, names, items, true) == Ok((names', items'), end)
  {
    var names1, items1 := names + [ERROR_MESSAGE], items + [JString(msg)];
    ThirdReads(d, p, names, items, msg, names1, items1, q);
    LastReads(d, q, names1, items1, names', items', end);
  }

  /** The first member. */
  lemma {:induction false} FirstReads(d: Doc, p: nat, action: bytes, code: int, msg: bytes, q: nat)
    requires PlainText(action) && |action| <= UINT_LIMIT
    requires TextAt(d, p, Printed(ACTION, [], Quoted(action)) + PrintFrom2(code, msg))
    requires q == p + |Printed(ACTION, [], Quoted(action))|
    ensures p <= |d.text| && q <= |d.text| && TextAt(d, q, PrintFrom2(code, msg))
    ensures Members(d, p, [], [], false) == Members(d, q, [ACTION], [JString(action)], true)
  {
    PlainConstants();
    PrintedThen(d, p, [], [], ACTION, [], JString(action), PrintFrom2(code, msg), q, [ACTION], [JString(action)]);
  }

  /** The first two members. */
  lemma {:induction false} StartReads(d: Doc, p: nat, action: bytes, code: int, msg: bytes, q: nat)
    requires PlainText(action) && |action| <= UINT_LIMIT
    requires -0x8000_0000 <= code < 0x8000_0000
    requires TextAt(d, p, Printed(ACTION, [], Quoted(action)) + PrintFrom2(code, msg))
    requires q == p + |Printed(ACTION, [], Quoted(action))| + 2 + |Printed(STATUS_CODE, [SPACE], IntegerText(code))|
    ensures p <= |d.text| && q <= |d.text| && TextAt(d, q, PrintFrom3(msg))
    ensures Members(d, p, [], [], false)
            == Members(d, q, [ACTION, STATUS_CODE], [JString(action), JInteger(code)], true)
  {
    PlainConstants();
    var q1 := p + |Printed(ACTION, [], Quoted(action))|;
    FirstReads(d, p, action, code, msg, q1);
    NextReads(d, q1, [ACTION], [JString(action)], STATUS_CODE, [SPACE], JInteger(code), PrintFrom3(msg), q,
              [ACTION, STATUS_CODE], [JString(action), JInteger(code)]);
  }

  lemma {:induction false} ResponseMembers(d: Doc, action: bytes, code: int, msg: bytes, v: Json, end: nat)
    requires PlainText(action) && PlainText(msg) && |action| <= UINT_LIMIT && |msg| <= UINT_LIMIT
    requires -0x8000_0000 <= code < 0x8000_0000
    requires TextAt(d, 1, Printed(ACTION, [], Quoted(action)) + PrintFrom2(code, msg))
    requires v == ResponseObject(action, code, msg) && end == |BuildResponse(action, code, msg)|
    ensures 1 <= |d.text| && Members(d, 1, [], [], false) == Ok((v.names, v.items), end)
  {
    var q := 1 + |Printed(ACTION, [], Quoted(action))| + 2 + |Printed(STATUS_CODE, [SPACE], IntegerText(code))|;
    StartReads(d, 1, action, code, msg, q);
    assert v.names == [ACTION, STATUS_CODE] + [ERROR_MESSAGE, CONNECTION_STATUS];
    assert v.items == [JString(action), JInteger(code)] + [JString(msg), JInteger(0)];
    EndReads(d, q, [ACTION, STATUS_CODE], [JString(action), JInteger(code)], msg, v.names, v.items,
             q + 2 + |Printed(ERROR_MESSAGE, [SPACE], Quoted(msg))|, end);
  }

  /** Every response without quotes, backslashes and NULs is a text that parses to exactly the four members
      that were printed. */
  lemma ResponseParses(action: bytes, code: int, msg: bytes, comments: bool)
    requires PlainText(action) && PlainText(msg) && |action| <= UINT_LIMIT && |msg| <= UINT_LIMIT
    requires -0x8000_0000 <= code < 0x8000_0000
    ensures ParseText(BuildResponse(action, code, msg), comments) == Some(ResponseObject(action, code, msg))
  {
    var t, v := BuildResponse(action, code, msg), ResponseObject(action, code, msg);
    var d := Doc(t, comments);
    OwnText(t, comments);
    StartsAt(d, 0, t);
    TextParts(d, 0, [LBRACE], Printed(ACTION, [], Quoted(action)) + PrintFrom2(code, msg), 1);
    ResponseMembers(d, action, code, msg, v, |t|);
    WholeText(t, comments, v);
  }

  const CLOSING: bytes := [QUOTE, COMMA, SPACE, QUOTE]

  lemma {:induction false} Regrouped(title: bytes, gap: bytes, value: bytes, tail: bytes)
    ensures (title + (gap + value)) + tail == title + (gap + (value + tail))
  {
  }

  lemma {:induction false} QuotedThen(t: bytes, rest: bytes)
    ensures Quoted(t) + (SEPARATOR + ([QUOTE] + rest)) == [QUOTE] + (t + (CLOSING + rest))
  {
  }

  /** A printed member and the text behind it. */
  lemma {:induction false} TitleThen(
    d: Doc, p: nat, name: bytes, gap: bytes, value: bytes, tail: bytes, c: nat, q: nat)
    requires PlainText(name) && |name| <= UINT_LIMIT && (gap == [] || gap == [SPACE])
    requires TextAt(d, p, Printed(name, gap, value) + tail) && c == p + |name| + 3 && q == c + |gap|
    ensures p < c - 1 < |d.text| && d.text[p] == QUOTE && Chars(d, p + 1, [], false) == Ok(name, c - 1)
    ensures d.text[c - 1] == COLON && TextAt(d, q, value + tail)
    ensures gap == [SPACE] ==> c < |d.text| && d.text[c] == SPACE
  {
    Regrouped(Quoted(name) + [COLON], gap, value, tail);
    TitleParts(d, p, name, gap, value + tail, c, q);
  }

  /** What stands between quotes, and behind them. */
  lemma {:induction false} QuotedParts(d: Doc, q: nat, t: bytes, rest: bytes, end: nat)
    requires TextAt(d, q, Quoted(t) + (SEPARATOR + ([QUOTE] + rest))) && end == q + 1 + |t|
    ensures q < |d.text| && d.text[q] == QUOTE && TextAt(d, q + 1, t) && end + 4 <= |d.text|
    ensures d.text[end] == QUOTE && d.text[end + 1] == COMMA && d.text[end + 2] == SPACE && d.text[end + 3] == QUOTE
  {
    QuotedThen(t, rest);
    TextParts(d, q, [QUOTE], t + (CLOSING + rest), q + 1);
    StartsAt(d, q, [QUOTE]);
    TextParts(d, q + 1, t, CLOSING + rest, end);
    TextParts(d, end, CLOSING, rest, end + 4);
    TextIs(d, end, CLOSING);
    var after := d.text[end..end + 4];
    assert d.text[end] == after[0] && d.text[end + 1] == after[1];
    assert d.text[end + 2] == after[2] && d.text[end + 3] == after[3];
  }

  /** The item that is read for a string value. */
  lemma {:induction false} StringItem(
    d: Doc, c: nat, q: nat, names: seq<bytes>, items: seq<Json>, t: bytes) returns (next: nat)
    requires c < |d.text| && d.text[c] == COLON && q < |d.text| && Skip(d, c + 1) == Some(q) && d.text[q] == QUOTE
    requires |names| == |items| + 1 && MemberValue(d, c, names, items).Ok?
    requires |items| < |MemberValue(d, c, names, items).value.1|
    requires MemberValue(d, c, names, items).value.1[|items|] == JString(t)
    ensures Chars(d, q + 1, [], false) == Ok(t, next)
  {
    assert Value(d, c + 1) == ValueAt(d, q) && ValueAt(d, q).Ok?;
    var s := Chars(d, q + 1, [], false);
    ColonStep(d, c, names, items, q, JString(s.value), s.next);
    MembersExtend(d, s.next, names, items + [JString(s.value)], true);
    assert (items + [JString(s.value)])[|items|] == MemberValue(d, c, names, items).value.1[|items|];
    next := s.next;
  }

  /** A string value that is read back as it was printed is plain. */
  lemma {:induction false} ValuePlain(
    d: Doc, c: nat, q: nat, names: seq<bytes>, items: seq<Json>, t: bytes, rest: bytes)
    requires c < |d.text| && d.text[c] == COLON && q < |d.text| && Skip(d, c + 1) == Some(q)
    requires TextAt(d, q, Quoted(t) + (SEPARATOR + ([QUOTE] + rest)))
    requires |names| == |items| + 1 && MemberValue(d, c, names, items).Ok?
    requires |items| < |MemberValue(d, c, names, items).value.1|
    requires MemberValue(d, c, names, items).value.1[|items|] == JString(t)
    ensures PlainText(t)
  {
    QuotedParts(d, q, t, rest, q + 1 + |t|);
    var next := StringItem(d, c, q, names, items, t);
    ReadsPlain(d, q + 1, t, q + 1 + |t|, next);
  }

  /** A member printed with a string that is read back as it was printed: the string is plain. */
  lemma {:induction false} QuotedPlain(
    d: Doc, p: nat, names: seq<bytes>, items: seq<Json>, name: bytes, gap: bytes, t: bytes, rest: bytes,
    all: (seq<bytes>, seq<Json>), end: nat)
    requires PlainText(name) && |name| <= UINT_LIMIT && (gap == [] || gap == [SPACE]) && |names| == |items|
    requires TextAt(d, p, Printed(name, gap, Quoted(t)) + (SEPARATOR + ([QUOTE] + rest)))
    requires p <= |d.text| && Members(d, p, names, items, false) == Ok(all, end)
    requires |items| < |all.1| && all.1[|items|] == JString(t)
    ensures PlainText(t)
  {
    var c := p + |name| + 3;
    var q := c + |gap|;
    TitleThen(d, p, name, gap, Quoted(t), SEPARATOR + ([QUOTE] + rest), c, q);
    NameStep(d, p, names, items, name, c - 1);
    StartsAt(d, q, Quoted(t) + (SEPARATOR + ([QUOTE] + rest)));
    GapSkips(d, c, gap, q);
    ValuePlain(d, c - 1, q, names + [name], items, t, rest);
  }

  /** The rest of a printed text behind its separator. */
  function Behind(name: bytes, gap: bytes, value: bytes, rest: bytes): bytes {
    (name + [QUOTE] + [COLON]) + (gap + value) + rest
  }

  lemma {:induction false} BehindSeparator(name: bytes, gap: bytes, value: bytes, rest: bytes)
    ensures SEPARATOR + (Printed(name, gap, value) + rest) == SEPARATOR + ([QUOTE] + Behind(name, gap, value, rest))
  {
  }

  lemma {:induction false} ActionPlain(
    d: Doc, action: bytes, code: int, msg: bytes, all: (seq<bytes>, seq<Json>), end: nat)
    requires TextAt(d, 1, Printed(ACTION, [], Quoted(action)) + PrintFrom2(code, msg)) && 1 <= |d.text|
    requires Members(d, 1, [], [], false) == Ok(all, end) && |all.1| > 0 && all.1[0] == JString(action)
    ensures PlainText(action)
  {
    PlainConstants();
    BehindSeparator(STATUS_CODE, [SPACE], IntegerText(code), PrintFrom3(msg));
    QuotedPlain(d, 1, [], [], ACTION, [], action, Behind(STATUS_CODE, [SPACE], IntegerText(code), PrintFrom3(msg)), all,
                end);
  }

  lemma {:induction false} MessagePlain(
    d: Doc, p: nat, names: seq<bytes>, items: seq<Json>, msg: bytes, all: (seq<bytes>, seq<Json>), end: nat)
    requires |names| == |items| == 2 && TextAt(d, p, PrintFrom3(msg)) && p <= |d.text|
    requires Members(d, p, names, items, true) == Ok(all, end) && |all.1| > 2 && all.1[2] == JString(msg)
    ensures PlainText(msg)
  {
    PlainConstants();
    var third := Printed(ERROR_MESSAGE, [SPACE], Quoted(msg));
    SeparatorReads(d, p, third + PrintFrom4(), names, items, p + 2);
    BehindSeparator(CONNECTION_STATUS, [], [ZERO], TAIL);
    QuotedPlain(d, p + 2, names, items, ERROR_MESSAGE, [SPACE], msg, Behind(CONNECTION_STATUS, [], [ZERO], TAIL), all,
                end);
  }

  /** What is read for an object that parses. */
  lemma {:induction false} RootRead(t: bytes, rest: bytes, comments: bool, d: Doc, v: Json) returns (end: nat)
    requires t == [LBRACE] + rest && d == Doc(t, comments) && v.JObject? && ParseText(t, comments) == Some(v)
    ensures TextAt(d, 1, rest) && 1 <= |d.text| && Members(d, 1, [], [], false) == Ok((v.names, v.items), end)
  {
    OwnText(t, comments);
    TextParts(d, 0, [LBRACE], rest, 1);
    assert t[0] == LBRACE && AfterMark(t) == t && Skip(d, 0) == Some(0);
    assert ValueAt(d, 0) == Value(d, 0) && Value(d, 0).Ok?;
    end := Members(d, 1, [], [], false).next;
  }

  /** The response parses to the four printed members only if action and message are plain. */
  lemma {:induction false} ResponsePlain(action: bytes, code: int, msg: bytes, comments: bool)
    requires |action| <= UINT_LIMIT && |msg| <= UINT_LIMIT && -0x8000_0000 <= code < 0x8000_0000
    requires ParseText(BuildResponse(action, code, msg), comments) == Some(ResponseObject(action, code, msg))
    ensures PlainText(action) && PlainText(msg)
  {
    var d, v := Doc(BuildResponse(action, code, msg), comments), ResponseObject(action, code, msg);
    var end := RootRead(d.text, Printed(ACTION, [], Quoted(action)) + PrintFrom2(code, msg), comments, d, v);
    ActionPlain(d, action, code, msg, (v.names, v.items), end);
    var q := 1 + |Printed(ACTION, [], Quoted(action))| + 2 + |Printed(STATUS_CODE, [SPACE], IntegerText(code))|;
    StartReads(d, 1, action, code, msg, q);
    MessagePlain(d, q, [ACTION, STATUS_CODE], [JString(action), JInteger(code)], msg, (v.names, v.items), end);
  }

  /** A response is read back as the four members that were printed exactly when its action and its message hold no
      quote, no backslash and no NUL. */
  lemma {:induction false} ResponseExactly(action: bytes, code: int, msg: bytes, comments: bool)
    requires |action| <= UINT_LIMIT && |msg| <= UINT_LIMIT && -0x8000_0000 <= code < 0x8000_0000
    ensures ParseText(BuildResponse(action, code, msg), comments) == Some(ResponseObject(action, code, msg))
            <==> PlainText(action) && PlainText(msg)
  {
    if PlainText(action) && PlainText(msg) {
      ResponseParses(action, code, msg, comments);
    } else if ParseText(BuildResponse(action, code, msg), comments) == Some(ResponseObject(action, code, msg)) {
      ResponsePlain(action, code, msg, comments);
      assert false;
    }
  }

  lemma DistinctNames()
    ensures STATUS_CODE != ACTION && ERROR_MESSAGE != ACTION && CONNECTION_STATUS != ACTION
    ensures STATUS_CODE != PARAMETERS && ERROR_MESSAGE != PARAMETERS && CONNECTION_STATUS != PARAMETERS
  {
  }

  lemma {:induction false} PlainIsWhole(t: bytes)
    requires PlainText(t)
    ensures CutAtNul(t) == t
  {
    CutAtNulSame(t);
  }

  /** A member that is neither the action nor the parameters changes nothing. */
  lemma OtherMember(f: Fields, v: Json, n: nat, name: bytes)
    requires WellFormed(v) && v.JObject? && 0 < n <= |v.items|
    requires v.names[n - 1] == name && PlainText(name) && name != ACTION && name != PARAMETERS
    ensures ApplyMembers(f, v.names, v.items, n) == ApplyMembers(f, v.names, v.items, n - 1)
  {
    PlainIsWhole(name);
  }

  lemma {:induction false} FirstMember(action: bytes, v: Json)
    requires WellFormed(v) && v.JObject? && |v.items| > 0
    requires v.names[0] == ACTION && v.items[0] == JString(action) && PlainText(action)
    ensures ApplyMembers(EMPTY, v.names, v.items, 1)
            == if |action| < FIELD_SIZE then Some(EMPTY.(action := action)) else None
  {
    PlainConstants();
    PlainIsWhole(action);
    PlainIsWhole(ACTION);
    assert ApplyMembers(EMPTY, v.names, v.items, 0) == Some(EMPTY);
  }

  /** A response whose last three members are other ones. */
  lemma {:induction false} OtherMembers(v: Json)
    requires WellFormed(v) && v.JObject? && |v.items| == 4
    requires v.names[1] == STATUS_CODE && v.names[2] == ERROR_MESSAGE && v.names[3] == CONNECTION_STATUS
    ensures ApplyMembers(EMPTY, v.names, v.items, 4) == ApplyMembers(EMPTY, v.names, v.items, 1)
  {
    PlainConstants();
    DistinctNames();
    OtherMember(EMPTY, v, 2, STATUS_CODE);
    OtherMember(EMPTY, v, 3, ERROR_MESSAGE);
    OtherMember(EMPTY, v, 4, CONNECTION_STATUS);
  }

  /** Read as a request, a response gives back its action and nothing else, if the action fits the field. */
  lemma ResponseAction(action: bytes, code: int, msg: bytes)
    requires PlainText(action)
    ensures RequestOf(EMPTY, ResponseObject(action, code, msg))
            == if |action| < FIELD_SIZE then Some(EMPTY.(action := action)) else None
  {
    var v := ResponseObject(action, code, msg);
    OtherMembers(v);
    FirstMember(action, v);
  }
}
