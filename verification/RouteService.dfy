/** The request handler of the routing service: configure, reset, and what every run of them keeps. */
module RouteService {
  import opened Bytes
  import opened DnsBlock
  import opened Routes
  import opened Requests
  import Grammar
  import Ledger
  import Sizes

  const DEVICE_NAME := "ssr-route-tap0"
  const DEFAULT_TAP_GATEWAY := "10.0.85.1"

  const CONFIGURE_ROUTING: bytes :=
    [0x63, 0x6F, 0x6E, 0x66, 0x69, 0x67, 0x75, 0x72, 0x65, 0x52, 0x6F, 0x75, 0x74, 0x69, 0x6E, 0x67]
  const RESET_ROUTING: bytes :=
    [0x72, 0x65, 0x73, 0x65, 0x74, 0x52, 0x6F, 0x75, 0x74, 0x69, 0x6E, 0x67]

  // ----- the default gateway -----

  /** A row of the forwarding table: the fields that are looked at, and the rest of its bytes, taken together. */
  datatype ForwardRow = ForwardRow(dest: Address, ifIndex: int, nextHop: Address, metric: nat, rest: nat)

  /** The row that is zero in every byte. */
  const NO_ROW := ForwardRow(0, 0, 0, 0, 0)

  // A row is eligible if it is a default route that does not lead through the TAP device.  This is written out in
  // its fields everywhere below.

  /** What get_system_ipv4_gateway makes of the rows, one after the other: a row replaces the best so far if it
      is eligible and of less metric, or if there is none so far.  An all-zero row is taken for "none". */
  function Pick(rows: seq<ForwardRow>, tapIndex: int): ForwardRow {
    if |rows| == 0 then NO_ROW
    else
      var best, r := Pick(rows[..|rows| - 1], tapIndex), rows[|rows| - 1];
      if r.dest == 0 && r.ifIndex != tapIndex && (best == NO_ROW || r.metric < best.metric) then r else best
  }

  /** Row `i` is the first eligible row of least metric from row `k` on. */
  ghost predicate FirstLeast(rows: seq<ForwardRow>, tapIndex: int, k: nat, i: nat) {
    && k <= i < |rows| && rows[i].dest == 0 && rows[i].ifIndex != tapIndex
    && (forall j | k <= j < |rows| && rows[j].dest == 0
            && rows[j].ifIndex != tapIndex :: rows[i].metric <= rows[j].metric)
    && (forall j | k <= j < i && rows[j].dest == 0 && rows[j].ifIndex != tapIndex :: rows[i].metric < rows[j].metric)
  }

  /** Another row leaves the first least row, or takes its place. */
  lemma {:induction false} LeastNext(rows: seq<ForwardRow>, tapIndex: int, k: nat, i: nat)
    requires 0 < |rows| && FirstLeast(rows[..|rows| - 1], tapIndex, k, i)
    ensures var n, r := |rows| - 1, rows[|rows| - 1];
      FirstLeast(rows, tapIndex, k, if r.dest == 0 && r.ifIndex != tapIndex && r.metric < rows[i].metric then n else i)
  {
    var n, r := |rows| - 1, rows[|rows| - 1];
    forall j | k <= j < n ensures rows[j] == rows[..n][j] {
    }
  }

  /** Eligible, of metric 0, and not the all-zero row. */
  predicate Unbeaten(r: ForwardRow, tapIndex: int) {
    r.dest == 0 && r.ifIndex != tapIndex && r.metric == 0 && r != NO_ROW
  }

  /** The first row that nothing can displace, or the length of the table. */
  function FirstUnbeaten(rows: seq<ForwardRow>, tapIndex: int): (i: nat)
    ensures i <= |rows| && (i < |rows| ==> Unbeaten(rows[i], tapIndex))
    ensures forall j | 0 <= j < i :: !Unbeaten(rows[j], tapIndex)
  {
    if |rows| == 0 then 0
    else
      var i := FirstUnbeaten(rows[..|rows| - 1], tapIndex);
      assert forall j | 0 <= j < |rows| - 1 :: rows[j] == rows[..|rows| - 1][j];
      if i < |rows| - 1 || Unbeaten(rows[|rows| - 1], tapIndex) then i else |rows|
  }

  /** The position behind the last all-zero row, if such a row is eligible; else 0. */
  function Restart(rows: seq<ForwardRow>, tapIndex: int): (k: nat)
    ensures k <= |rows| && (k > 0 ==> tapIndex != 0 && rows[k - 1] == NO_ROW)
    ensures tapIndex != 0 ==> forall j | k <= j < |rows| :: rows[j] != NO_ROW
  {
    if |rows| == 0 || tapIndex == 0 then 0
    else if rows[|rows| - 1] == NO_ROW then |rows|
    else
      assert forall j | 0 <= j < |rows| - 1 :: rows[j] == rows[..|rows| - 1][j];
      Restart(rows[..|rows| - 1], tapIndex)
  }

  /** The choice for every table, by its rows alone.  The first row that nothing displaces is chosen if there is
      one.  Otherwise an all-zero row, where it is eligible, discards what came before it, and the choice is the
      first eligible row of least metric behind the last of them, if there is one. */
  ghost predicate Chosen(rows: seq<ForwardRow>, tapIndex: int, best: ForwardRow) {
    var i, k := FirstUnbeaten(rows, tapIndex), Restart(rows, tapIndex);
    if i < |rows| then best == rows[i]
    else if forall j | k <= j < |rows| :: !(rows[j].dest == 0 && rows[j].ifIndex != tapIndex) then best == NO_ROW
    else exists m: nat :: FirstLeast(rows, tapIndex, k, m) && rows[m] == best && best != NO_ROW
  }

  /** How one more row moves the marks, when nothing before it is unbeaten. */
  lemma {:induction false} NextMarks(rows: seq<ForwardRow>, tapIndex: int, before: seq<ForwardRow>, r: ForwardRow)
    requires 0 < |rows| && before == rows[..|rows| - 1] && r == rows[|rows| - 1]
    requires FirstUnbeaten(before, tapIndex) == |before|
    ensures FirstUnbeaten(rows, tapIndex) == if Unbeaten(r, tapIndex) then |before| else |rows|
    ensures Restart(rows, tapIndex)
            == if tapIndex != 0 && r == NO_ROW then |rows| else Restart(before, tapIndex)
  {
  }

  /** One more row, when there is no choice so far. */
  lemma {:induction false} FirstChosen(
    rows: seq<ForwardRow>, tapIndex: int, before: seq<ForwardRow>, r: ForwardRow, best: ForwardRow)
    requires 0 < |rows| && before == rows[..|rows| - 1] && r == rows[|rows| - 1]
    requires FirstUnbeaten(before, tapIndex) == |before|
    requires forall j | Restart(before, tapIndex) <= j < |before| ::
               !(before[j].dest == 0 && before[j].ifIndex != tapIndex)
    requires best == if r.dest == 0 && r.ifIndex != tapIndex then r else NO_ROW
    ensures Chosen(rows, tapIndex, best)
  {
    NextMarks(rows, tapIndex, before, r);
    var k := Restart(before, tapIndex);
    forall j | k <= j < |before| ensures rows[j] == before[j] {
    }
    if r.dest == 0 && r.ifIndex != tapIndex {
      assert FirstLeast(rows, tapIndex, k, |before|);
    }
  }

  /** One more row, when there is a choice, which has a metric above 0. */
  lemma {:induction false} NextChosen(
    rows: seq<ForwardRow>, tapIndex: int, before: seq<ForwardRow>, r: ForwardRow, m: nat, best: ForwardRow)
    requires 0 < |rows| && before == rows[..|rows| - 1] && r == rows[|rows| - 1]
    requires FirstUnbeaten(before, tapIndex) == |before|
    requires FirstLeast(before, tapIndex, Restart(before, tapIndex), m) && before[m] != NO_ROW
    requires best == if r.dest == 0 && r.ifIndex != tapIndex && r.metric < before[m].metric then r else before[m]
    ensures Chosen(rows, tapIndex, best)
  {
    NextMarks(rows, tapIndex, before, r);
    assert !Unbeaten(before[m], tapIndex);
    var k := Restart(before, tapIndex);
    LeastNext(rows, tapIndex, k, m);
    var i := if r.dest == 0 && r.ifIndex != tapIndex && r.metric < before[m].metric then |before| else m;
    assert FirstLeast(rows, tapIndex, k, i) && rows[i] == best;
    assert !(forall j | k <= j < |rows| :: !(rows[j].dest == 0 && rows[j].ifIndex != tapIndex));
  }

  /** What the walk over the table chooses. */
  lemma {:induction false} PickChosen(rows: seq<ForwardRow>, tapIndex: int)
    ensures Chosen(rows, tapIndex, Pick(rows, tapIndex))
    decreases |rows|
  {
    if |rows| > 0 {
      var before := rows[..|rows| - 1];
      PickChosen(before, tapIndex);
      var old', new', k := Pick(before, tapIndex), Pick(rows, tapIndex), Restart(before, tapIndex);
      if FirstUnbeaten(before, tapIndex) == |before| {
        if forall j | k <= j < |before| :: !(before[j].dest == 0 && before[j].ifIndex != tapIndex) {
          FirstChosen(rows, tapIndex, before, rows[|rows| - 1], new');
        } else {
          var m: nat :| FirstLeast(before, tapIndex, k, m) && before[m] == old' && old' != NO_ROW;
          NextChosen(rows, tapIndex, before, rows[|rows| - 1], m, new');
        }
      }
    }
  }

  /** `best` is a choice of least metric whenever some row is eligible. */
  predicate LeastOfAll(rows: seq<ForwardRow>, tapIndex: int, best: ForwardRow) {
    forall r | r in rows && r.dest == 0 && r.ifIndex != tapIndex ::
      best != ForwardRow(0, 0, 0, 0, 0) && best.metric <= r.metric
  }

  /** The gateway is the eligible default route of least metric exactly when the table has no all-zero row, or that
      row is not eligible, or another eligible row has metric 0. */
  lemma {:induction false} LeastExactly(rows: seq<ForwardRow>, tapIndex: int)
    ensures LeastOfAll(rows, tapIndex, Pick(rows, tapIndex))
            <==> || ForwardRow(0, 0, 0, 0, 0) !in rows || tapIndex == 0
                 || exists r :: r in rows && r.dest == 0 && r.ifIndex != tapIndex && r.metric == 0
                                && r != ForwardRow(0, 0, 0, 0, 0)
  {
    PickChosen(rows, tapIndex);
    var best, i, k := Pick(rows, tapIndex), FirstUnbeaten(rows, tapIndex), Restart(rows, tapIndex);
    if i < |rows| {
      assert rows[i] in rows && Unbeaten(rows[i], tapIndex);
    } else {
      forall r | r in rows ensures !Unbeaten(r, tapIndex) {
        var j :| 0 <= j < |rows| && rows[j] == r;
      }
      if k > 0 {
        assert rows[k - 1] in rows && rows[k - 1].dest == 0 && rows[k - 1].ifIndex != tapIndex;
      }
    }
  }

  /** The choice is an eligible row of the table, or none. */
  lemma {:induction false} PickEligible(rows: seq<ForwardRow>, tapIndex: int)
    ensures var best := Pick(rows, tapIndex);
      best != ForwardRow(0, 0, 0, 0, 0) ==> best in rows && best.dest == 0 && best.ifIndex != tapIndex
    decreases |rows|
  {
    if |rows| > 0 {
      PickEligible(rows[..|rows| - 1], tapIndex);
      assert forall r | r in rows[..|rows| - 1] :: r in rows;
    }
  }

  /** An all-zero row hides the eligible row of least metric before it. */
  lemma {:induction false} PickMisses(rows: seq<ForwardRow>)
    requires rows == [ForwardRow(0, 7, 9, 10, 1), NO_ROW, ForwardRow(0, 8, 9, 20, 1)]
    ensures Pick(rows, 5) == rows[2] && rows[0].dest == 0 && rows[0].ifIndex != 5 && rows[0].metric < rows[2].metric
    ensures Pick(rows[..2], 5) == NO_ROW
  {
    assert Pick(rows[..0], 5) == NO_ROW;
    assert rows[..1][..0] == rows[..0] && Pick(rows[..1], 5) == rows[0];
    assert rows[..2][..1] == rows[..1] && Pick(rows[..2], 5) == NO_ROW;
    assert rows[..3] == rows && Pick(rows, 5) == rows[2];
  }

  /** get_system_ipv4_gateway over the whole table. */
  method PickGateway(rows: seq<ForwardRow>, tapIndex: int) returns (best: ForwardRow)
    ensures best == Pick(rows, tapIndex)
    ensures best != ForwardRow(0, 0, 0, 0, 0) ==> best in rows && best.dest == 0 && best.ifIndex != tapIndex
    ensures (forall r | r in rows :: r.dest != 0 || r.ifIndex == tapIndex) ==> best == ForwardRow(0, 0, 0, 0, 0)
    ensures LeastOfAll(rows, tapIndex, best)
            <==> || ForwardRow(0, 0, 0, 0, 0) !in rows || tapIndex == 0
                 || exists r :: r in rows && r.dest == 0 && r.ifIndex != tapIndex && r.metric == 0
                                && r != ForwardRow(0, 0, 0, 0, 0)
  {
    PickEligible(rows, tapIndex);
    LeastExactly(rows, tapIndex);
    best := NO_ROW;
    var i := 0;
    while i < |rows|
      invariant i <= |rows| && best == Pick(rows[..i], tapIndex)
    {
      var row := rows[i];
      assert rows[..i + 1][..i] == rows[..i];
      if row.dest == 0 && row.ifIndex != tapIndex {
        if best == NO_ROW || row.metric < best.metric {
          best := row;
        }
      }
      i := i + 1;
    }
    assert rows[..i] == rows;
  }

  // ----- the abstract state and the steps of a run -----

  datatype Kind = Configure | Reset | Unknown

  /** What a request asks for.  A broken pipe counts as a reset. */
  function KindOf(action: bytes): Kind {
    if action == CONFIGURE_ROUTING then Configure else if action == RESET_ROUTING then Reset else Unknown
  }

  /** The actions, letter by letter: configureRouting and resetRouting. */
  lemma Actions(action: bytes)
    ensures KindOf(action) == Configure <==>
            action == [0x63, 0x6F, 0x6E, 0x66, 0x69, 0x67, 0x75, 0x72, 0x65,
                       0x52, 0x6F, 0x75, 0x74, 0x69, 0x6E, 0x67]
    ensures KindOf(action) == Kind.Reset <==>
            action == [0x72, 0x65, 0x73, 0x65, 0x74, 0x52, 0x6F, 0x75, 0x74, 0x69, 0x6E, 0x67]
  {
    assert |CONFIGURE_ROUTING| != |RESET_ROUTING|;
  }

  /** The state of the service between requests: the recorded proxy address, whether the filter's engine is open
      and whether a network monitor runs, and how many monitors have been started and stopped. */
  datatype Snapshot = Snapshot(proxy: string, filtering: bool, monitor: bool, started: nat, stopped: nat)

  /** One handled request: its kind, the wide-character text that the proxy address was converted to (empty
      when the conversion failed), and the result. */
  datatype Call = Call(kind: Kind, text: string, result: CInt)

  /** What handling one request does to the state: a running monitor is stopped, and the request is served. */
  predicate Step(s: Snapshot, c: Call, t: Snapshot) {
    && t.stopped == s.stopped + (if s.monitor then 1 else 0)
    && match c.kind
       case Configure =>
         && (c.result == 0 <==> t.filtering)
         && (t.proxy == s.proxy || t.proxy == c.text)
         && (c.result == 0 ==> t.proxy == c.text)
         && t.started == s.started + 1 && t.monitor
       case Reset =>
         && (if s.proxy == "" then t.proxy == s.proxy && t.filtering == s.filtering && c.result == 0
             else t.proxy == "" && !t.filtering)
         && t.started == s.started && !t.monitor
       case Unknown =>
         && t.proxy == s.proxy && t.filtering == s.filtering && c.result == -1
         && t.started == s.started && !t.monitor
  }

  /** A run of the service from its start. */
  predicate Run(states: seq<Snapshot>, calls: seq<Call>) {
    && |states| == |calls| + 1
    && states[0] == Snapshot("", false, false, 0, 0)
    && forall i | 0 <= i < |calls| :: Step(states[i], calls[i], states[i + 1])
  }

  /** The engine is open although no proxy address is recorded. */
  predicate Stuck(s: Snapshot) {
    s.filtering && s.proxy == ""
  }

  /** The last configure request of a run, if any. */
  function LastConfigure(calls: seq<Call>): Option<Call> {
    if |calls| == 0 then None
    else if calls[|calls| - 1].kind == Configure then Some(calls[|calls| - 1])
    else LastConfigure(calls[..|calls| - 1])
  }

  /** The last configure request returned 0 although the converted proxy address was empty. */
  predicate BlankConfigure(calls: seq<Call>) {
    LastConfigure(calls).Some? && LastConfigure(calls).value.result == 0 && LastConfigure(calls).value.text == ""
  }

  lemma RunPrefix(states: seq<Snapshot>, calls: seq<Call>)
    requires Run(states, calls) && |calls| > 0
    ensures Run(states[..|calls|], calls[..|calls| - 1])
  {
    var n := |calls| - 1;
    forall i | 0 <= i < n ensures Step(states[..n + 1][i], calls[..n][i], states[..n + 1][i + 1]) {
      assert Step(states[i], calls[i], states[i + 1]);
    }
  }

  /** No monitor is lost: after any run, monitors started less monitors stopped is 1 if the last request was
      configureRouting, else 0, and that one is the monitor that the next request will stop. */
  lemma {:induction false} MonitorBalance(states: seq<Snapshot>, calls: seq<Call>)
    requires Run(states, calls)
    ensures var s := states[|calls|];
      && s.started - s.stopped == (if |calls| > 0 && calls[|calls| - 1].kind == Configure then 1 else 0)
      && (s.monitor <==> s.started != s.stopped)
    decreases |calls|
  {
    if |calls| > 0 {
      var n := |calls| - 1;
      RunPrefix(states, calls);
      MonitorBalance(states[..n + 1], calls[..n]);
      assert Step(states[n], calls[n], states[n + 1]);
    }
  }

  /** Some reset came after the last configure request. */
  predicate ResetSince(calls: seq<Call>) {
    |calls| > 0 && calls[|calls| - 1].kind != Configure
    && (calls[|calls| - 1].kind == Reset || ResetSince(calls[..|calls| - 1]))
  }

  /** After any run the engine is open exactly when the last configure request returned 0 and either no reset
      came after it or its converted address was empty; it is then that address which is recorded. */
  lemma {:induction false} EngineOpenExactly(states: seq<Snapshot>, calls: seq<Call>)
    requires Run(states, calls)
    ensures states[|calls|].filtering
            <==> && LastConfigure(calls).Some? && LastConfigure(calls).value.result == 0
                 && (!ResetSince(calls) || LastConfigure(calls).value.text == "")
    ensures states[|calls|].filtering ==> states[|calls|].proxy == LastConfigure(calls).value.text
    decreases |calls|
  {
    if |calls| > 0 {
      var n := |calls| - 1;
      RunPrefix(states, calls);
      EngineOpenExactly(states[..n + 1], calls[..n]);
      assert Step(states[n], calls[n], states[n + 1]);
    }
  }

  /** The engine is open without a recorded proxy address exactly when the last configure request
      returned 0 with an empty converted address. */
  lemma {:induction false} StuckExactly(states: seq<Snapshot>, calls: seq<Call>)
    requires Run(states, calls)
    ensures Stuck(states[|calls|]) <==> BlankConfigure(calls)
    decreases |calls|
  {
    if |calls| > 0 {
      var n := |calls| - 1;
      RunPrefix(states, calls);
      StuckExactly(states[..n + 1], calls[..n]);
      assert Step(states[n], calls[n], states[n + 1]);
    }
  }

  /** A reset or a broken pipe leaves the engine closed exactly when the last configure request before it did
      not return 0 with an empty converted address. */
  lemma ResetCloses(states: seq<Snapshot>, calls: seq<Call>)
    requires Run(states, calls) && |calls| > 0 && calls[|calls| - 1].kind == Reset
    ensures !states[|calls|].filtering <==> !BlankConfigure(calls[..|calls| - 1])
  {
    var n := |calls| - 1;
    RunPrefix(states, calls);
    StuckExactly(states[..n + 1], calls[..n]);
    assert Step(states[n], calls[n], states[n + 1]);
    NoProxyNoEngine(states[..n + 1], calls[..n]);
  }

  /** Unless it is stuck, an open engine has a proxy address recorded. */
  lemma NoProxyNoEngine(states: seq<Snapshot>, calls: seq<Call>)
    requires Run(states, calls)
    ensures !BlankConfigure(calls) && states[|calls|].filtering ==> states[|calls|].proxy != ""
  {
    StuckExactly(states, calls);
  }

  // ----- what the system answers -----

  /** What the system answers while one configure request is handled: the address that adjust_ipv4_addr finds,
      the wide-character texts of the requested device name, of that address, of the requested gateway and of
      the chosen gateway (None where the conversion returns a null pointer), the answers to the DNS filter, the
      index and the gateway that the adapter list gives for the TAP device, and the forwarding table. */
  datatype World = World(
    resolved: Option<Address>, deviceText: Option<string>, filter: Answers, proxyText: Option<string>,
    tapIndex: Option<CInt>, tapGateway: Option<string>, requestedGateway: Option<string>, rows: seq<ForwardRow>,
    gatewayText: Option<string>)

  function TextOf(t: Option<string>): string {
    if t.Some? then t.value else ""
  }

  /** The device that the request is about; a name that cannot be converted leaves the one before. */
  function Device(f: Fields, w: World, before: string): string {
    if f.tapDeviceName == [] then DEVICE_NAME else if w.deviceText.Some? then w.deviceText.value else before
  }

  function TapIndex(w: World, before: CInt): CInt {
    if w.tapIndex.Some? then w.tapIndex.value else before
  }

  /** The exit code of the last of the commands that configure_routing runs, up to the first that fails. */
  function Routing(exits: nat -> CInt, at: nat): CInt {
    var redirect := Tries(exits, at, |IPV4_SUBNETS|);
    if redirect.code != 0 then redirect.code
    else
      var ipv6 := Tries(exits, redirect.next, IPV6_SUBNETS);
      if ipv6.code != 0 then ipv6.code
      else
        var proxy := Tries(exits, ipv6.next, 1);
        if proxy.code != 0 then proxy.code else Tries(exits, proxy.next, |IPV4_RESERVED_SUBNETS|).code
  }

  /** The filter is open once the request has been looked at. */
  predicate Opens(f: Fields, w: World, open: bool, device: string) {
    f.proxyIp != [] && w.resolved.Some? && (open || Installs(w.filter, Device(f, w, device)))
  }

  /** A configure request succeeds: the filter is open, and there is no gateway or every route was added. */
  predicate Succeeds(
    f: Fields, w: World, open: bool, device: string, index: CInt, exits: nat -> CInt, at: nat)
  {
    Opens(f, w, open, device) && (Pick(w.rows, TapIndex(w, index)) == NO_ROW || Routing(exits, at) == 0)
  }

  /** What reset_routing returns: the exit code of the last deletion whose result is kept. */
  function Removal(exits: nat -> CInt, at: nat, proxy: string): CInt {
    var redirect := Deletes(exits, at, |IPV4_SUBNETS|);
    var ipv6 := Deletes(exits, redirect.next, IPV6_SUBNETS);
    if proxy != "" then exits(ipv6.next) else ipv6.code
  }

  /** A series of commands in two parts. */
  lemma {:induction false} TriesCut(exits: nat -> CInt, at: nat, m: nat, k: nat)
    ensures var t := Tries(exits, at, m);
      && (t.code == 0 ==> t.done == m)
      && Tries(exits, at, m + k)
         == if t.code != 0 then t
            else var u := Tries(exits, t.next, k); Trial(m + u.done, u.code, u.next)
  {
    TriesComplete(exits, at, m);
    if Tries(exits, at, m).code != 0 {
      TriesStop(exits, at, m, m + k);
    } else {
      TriesAppend(exits, at, m, Tries(exits, at, m).next, k);
    }
  }

  /** Four series, one after the other, are one. */
  lemma {:induction false} FourSeries(exits: nat -> CInt, at: nat, a: nat, b: nat, c: nat, e: nat)
    ensures Tries(exits, at, a + b + c + e)
            == var s := Tries(exits, at, a);
               if s.code != 0 then s
               else
                 var t := Tries(exits, s.next, b);
                 if t.code != 0 then Trial(a + t.done, t.code, t.next)
                 else
                   var u := Tries(exits, t.next, c);
                   if u.code != 0 then Trial(a + b + u.done, u.code, u.next)
                   else
                     var v := Tries(exits, u.next, e); Trial(a + b + c + v.done, v.code, v.next)
  {
    TriesCut(exits, at, a, b);
    TriesCut(exits, at, a + b, c);
    TriesCut(exits, at, a + b + c, e);
  }

  /** The routing table after the first `n` of the 22 items: two subnets, three IPv6 subnets, the proxy and sixteen
      reserved subnets. */
  function RoutedBy(table: seq<Route>, proxy: Address, n: nat): seq<Route>
    requires n <= 22
  {
    if n <= 2 then PutAll(table, IPV4_SUBNETS, n, Tap)
    else if n <= 5 then PutAll(table, IPV4_SUBNETS, 2, Tap)
    else
      PutAll(Put(PutAll(table, IPV4_SUBNETS, 2, Tap), Route(Prefix(proxy, 32), Gateway)), IPV4_RESERVED_SUBNETS, n - 6,
             Gateway)
  }

  /** All additions succeed exactly when each of the 22 items, two subnets, three IPv6 subnets, the proxy and sixteen
      reserved subnets, passes with its first command or its second. */
  lemma {:induction false} RoutingExactly(exits: nat -> CInt, at: nat)
    ensures Routing(exits, at) == 0 <==> exists p :: Passes(exits, at, 22, p)
  {
    FourSeries(exits, at, |IPV4_SUBNETS|, IPV6_SUBNETS, 1, |IPV4_RESERVED_SUBNETS|);
    assert |IPV4_SUBNETS| + IPV6_SUBNETS + 1 + |IPV4_RESERVED_SUBNETS| == 22;
    TriesExactly(exits, at, 22);
  }

  lemma {:induction false} DeletesThree(exits: nat -> CInt, at: nat)
    ensures Deletes(exits, at, 2).next == if exits(at) != 0 then at + 1 else at + 2
    ensures var t := Deletes(exits, at, 3);
      && t.next == (if exits(at) != 0 then at + 1 else if exits(at + 1) != 0 then at + 2 else at + 3)
      && t.code == exits(t.next - 1)
  {
    assert Deletes(exits, at, 0) == Trial(0, 0, at);
    assert Deletes(exits, at, 1) == if exits(at) == 0 then Trial(1, 0, at + 1) else Trial(0, exits(at), at + 1);
    assert exits(at) == 0 ==> Deletes(exits, at, 2)
                              == if exits(at + 1) == 0 then Trial(2, 0, at + 2) else Trial(1, exits(at + 1), at + 2);
  }

  /** The deletions one by one, up to two routes and up to three IPv6 routes, and the proxy's route if there is one:
      the exit code of the last of them is what remains. */
  lemma {:induction false} RemovalIs(exits: nat -> CInt, at: nat, proxy: string)
    ensures var k := if exits(at) != 0 then at + 1 else at + 2;
      var m := if exits(k) != 0 then k + 1 else if exits(k + 1) != 0 then k + 2 else k + 3;
      Removal(exits, at, proxy) == if proxy != "" then exits(m) else exits(m - 1)
  {
    DeletesThree(exits, at);
    DeletesThree(exits, if exits(at) != 0 then at + 1 else at + 2);
  }

  // ----- the handlers -----

  /** The router record.  Pointers to OS objects are flags or counters. */
  class Router {
    var tapDeviceName: string
    var tapGatewayIp: string
    var tapInterfaceIndex: CInt
    var remoteProxyIp: string
    var gatewayIp: string
    var gatewayInterfaceIndex: int
    var monitor: bool
    var shutDown: bool
    const blocker: Blocker
    const table: Table

    ghost var started: nat
    ghost var stopped: nat

    constructor (routes: seq<Route>, exits: nat -> CInt)
      ensures Valid() && fresh(blocker) && fresh(table)
      ensures Abstract() == Snapshot("", false, false, 0, 0)
      ensures tapDeviceName == tapGatewayIp == gatewayIp == "" && tapInterfaceIndex == gatewayInterfaceIndex == 0
      ensures table.routes == routes && table.exits == exits && table.next == 0
    {
      blocker := new Blocker();
      table := new Table(routes, exits);
      tapDeviceName, tapGatewayIp, tapInterfaceIndex, remoteProxyIp, gatewayIp, gatewayInterfaceIndex := "", "", 0,
          "", "", 0;
      monitor, shutDown := false, false;
      started, stopped := 0, 0;
    }

    ghost predicate Valid()
      reads this, blocker
    {
      blocker.Valid() && !shutDown
    }

    /** What a run is about. */
    ghost function Abstract(): Snapshot
      reads this, blocker
    {
      Snapshot(remoteProxyIp, blocker.engine.Some?, monitor, started, stopped)
    }

    /** enum_adapter_info with retrieve_tap_gateway_ip, and the fallback when no gateway address is known. */
    method FindTapGateway(f: Fields, w: World)
      modifies this`tapInterfaceIndex, this`tapGatewayIp
      ensures tapInterfaceIndex == TapIndex(w, old(tapInterfaceIndex))
      ensures tapInterfaceIndex == if w.tapIndex.Some? then w.tapIndex.value else old(tapInterfaceIndex)
      ensures var known := if w.tapGateway.Some? then w.tapGateway.value else old(tapGatewayIp);
        tapGatewayIp == if known != "" then known
                        else if f.tapGatewayIp == [] then "10.0.85.1"
                        else if w.requestedGateway.Some? then w.requestedGateway.value else ""
    {
      if w.tapIndex.Some? {
        tapInterfaceIndex := w.tapIndex.value;
      }
      if w.tapGateway.Some? {
        tapGatewayIp := w.tapGateway.value;
      }
      if tapGatewayIp == "" {
        tapGatewayIp := if f.tapGatewayIp != [] then TextOf(w.requestedGateway) else DEFAULT_TAP_GATEWAY;
      }
    }

    /** The default gateway of the forwarding table becomes the bypass gateway; false when there is none. */
    method FindGateway(w: World) returns (found: bool)
      modifies this`gatewayInterfaceIndex, this`gatewayIp
      ensures found <==> Pick(w.rows, tapInterfaceIndex) != NO_ROW
      ensures found ==> gatewayInterfaceIndex == Pick(w.rows, tapInterfaceIndex).ifIndex
      ensures found ==> gatewayIp == if w.gatewayText.Some? then w.gatewayText.value else ""
      ensures !found ==> gatewayIp == old(gatewayIp) && gatewayInterfaceIndex == old(gatewayInterfaceIndex)
    {
      var best := PickGateway(w.rows, tapInterfaceIndex);
      if best == NO_ROW {
        return false;
      }
      gatewayInterfaceIndex := best.ifIndex;
      gatewayIp := TextOf(w.gatewayText);
      return true;
    }

    /** The commands of configure_routing, up to the first that fails. */
    method AddRoutes(proxy: Option<Address>) returns (result: CInt)
      modifies table
      ensures result == Routing(table.exits, old(table.next))
      ensures result == 0 && proxy.Some? ==> table.routes == Configured(old(table.routes), proxy.value)
      ensures Tries(table.exits, old(table.next), 22).done <= 22
      ensures proxy.Some? ==>
                table.routes == RoutedBy(old(table.routes), proxy.value, Tries(table.exits, old(table.next), 22).done)
    {
      TriesComplete(table.exits, table.next, 22);
      FourSeries(table.exits, table.next, 2, 3, 1, 16);
      TriesComplete(table.exits, Tries(table.exits, table.next, 2).next, 3);
      result := table.AddRedirect(IPV4_SUBNETS);
      if result != 0 {
        return;
      }
      result := table.StopIpv6();
      if result != 0 {
        return;
      }
      result := table.AddProxyRoute(proxy);
      if result != 0 {
        return;
      }
      result := table.AddReservedBypass(IPV4_RESERVED_SUBNETS);
    }

    /** The part of configure_routing after the engine has been opened.  Without a gateway it ends with 0 and
        runs no command. */
    method Redirect(f: Fields, w: World) returns (result: CInt)
      requires w.resolved.Some?
      modifies this`tapGatewayIp, this`tapInterfaceIndex, this`gatewayIp, this`gatewayInterfaceIndex, table
      ensures tapInterfaceIndex == TapIndex(w, old(tapInterfaceIndex))
      ensures tapInterfaceIndex == if w.tapIndex.Some? then w.tapIndex.value else old(tapInterfaceIndex)
      ensures Pick(w.rows, tapInterfaceIndex) != ForwardRow(0, 0, 0, 0, 0) ==>
                && gatewayInterfaceIndex == Pick(w.rows, tapInterfaceIndex).ifIndex
                && gatewayIp == if w.gatewayText.Some? then w.gatewayText.value else ""
      ensures if Pick(w.rows, tapInterfaceIndex) == NO_ROW then
                result == 0 && table.routes == old(table.routes) && table.next == old(table.next)
              else
                && result == Routing(table.exits, old(table.next))
                && (result == 0 && remoteProxyIp != "" ==>
                      table.routes == Configured(old(table.routes), w.resolved.value))
      ensures Tries(table.exits, old(table.next), 22).done <= 22
      ensures remoteProxyIp != "" && Pick(w.rows, tapInterfaceIndex) != ForwardRow(0, 0, 0, 0, 0) ==>
                table.routes
                == RoutedBy(old(table.routes), w.resolved.value, Tries(table.exits, old(table.next), 22).done)
    {
      TriesComplete(table.exits, table.next, 22);
      FindTapGateway(f, w);
      var found := FindGateway(w);
      if !found {
        return 0;
      }
      result := AddRoutes(if remoteProxyIp == "" then None else w.resolved);
    }

    /** The device name and the DNS filter. */
    method OpenFilter(f: Fields, w: World) returns (result: CInt)
      requires blocker.Valid()
      modifies this`tapDeviceName, blocker
      ensures blocker.Valid() && (result == 0 <==> blocker.engine.Some?)
      ensures tapDeviceName == Device(f, w, old(tapDeviceName))
      ensures tapDeviceName == if f.tapDeviceName == [] then "ssr-route-tap0"
                               else if w.deviceText.Some? then w.deviceText.value else old(tapDeviceName)
      ensures result == 0 <==> old(blocker.engine.Some?) || Installs(w.filter, Device(f, w, old(tapDeviceName)))
    {
      if f.tapDeviceName != [] {
        if w.deviceText.Some? {
          tapDeviceName := w.deviceText.value;
        }
      } else {
        tapDeviceName := DEVICE_NAME;
      }
      result := blocker.Begin(tapDeviceName, w.filter);
    }

    /** configure_routing.  Any failure closes the engine; the missing gateway is not reported as one. */
    method ConfigureRouting(f: Fields, w: World) returns (result: CInt)
      requires blocker.Valid()
      modifies this`tapDeviceName, this`tapGatewayIp, this`tapInterfaceIndex, this`remoteProxyIp, this`gatewayIp,
        this`gatewayInterfaceIndex, blocker, table
      ensures blocker.Valid() && (result == 0 <==> blocker.engine.Some?)
      ensures result == 0 <==> Succeeds(f, w, old(blocker.engine.Some?), old(tapDeviceName), old(tapInterfaceIndex),
                                 table.exits, old(table.next))
      ensures remoteProxyIp == if Opens(f, w, old(blocker.engine.Some?), old(tapDeviceName)) then TextOf(w.proxyText)
                               else old(remoteProxyIp)
      ensures !Opens(f, w, old(blocker.engine.Some?), old(tapDeviceName))
              || Pick(w.rows, TapIndex(w, old(tapInterfaceIndex))) == NO_ROW ==>
                table.routes == old(table.routes) && table.next == old(table.next)
      ensures result == 0 && remoteProxyIp != "" && Pick(w.rows, TapIndex(w, old(tapInterfaceIndex))) != NO_ROW ==>
                table.routes == Configured(old(table.routes), w.resolved.value)
      ensures Tries(table.exits, old(table.next), 22).done <= 22
      ensures Opens(f, w, old(blocker.engine.Some?), old(tapDeviceName)) && w.proxyText.Some? && w.proxyText.value != ""
              && Pick(w.rows, TapIndex(w, old(tapInterfaceIndex))) != ForwardRow(0, 0, 0, 0, 0) ==>
                table.routes
                == RoutedBy(old(table.routes), w.resolved.value, Tries(table.exits, old(table.next), 22).done)
      ensures tapDeviceName == if f.proxyIp == [] || w.resolved.None? then old(tapDeviceName)
                               else if f.tapDeviceName == [] then "ssr-route-tap0"
                               else if w.deviceText.Some? then w.deviceText.value else old(tapDeviceName)
      ensures result == 0 <==>
                && f.proxyIp != [] && w.resolved.Some?
                && (old(blocker.engine.Some?)
                    || (w.filter.list == 0 && tapDeviceName in w.filter.adapters && w.filter.open == 0
                        && w.filter.sublayer == 0 && w.filter.block == 0 && w.filter.permit == 0))
                && (Pick(w.rows, if w.tapIndex.Some? then w.tapIndex.value else old(tapInterfaceIndex))
                      == ForwardRow(0, 0, 0, 0, 0)
                    || Routing(table.exits, old(table.next)) == 0)
      ensures result == 0 ==>
                && remoteProxyIp == (if w.proxyText.Some? then w.proxyText.value else "")
                && tapInterfaceIndex == if w.tapIndex.Some? then w.tapIndex.value else old(tapInterfaceIndex)
      ensures result == 0 && Pick(w.rows, tapInterfaceIndex) != ForwardRow(0, 0, 0, 0, 0) ==>
                && gatewayInterfaceIndex == Pick(w.rows, tapInterfaceIndex).ifIndex
                && gatewayIp == if w.gatewayText.Some? then w.gatewayText.value else ""
    {
      TriesComplete(table.exits, table.next, 22);
      result := -1;
      if f.proxyIp != [] && w.resolved.Some? {
        result := OpenFilter(f, w);
        if result == 0 {
          remoteProxyIp := TextOf(w.proxyText);
          result := Redirect(f, w);
        }
      }
      if result != 0 {
        blocker.End();
      }
    }

    /** reset_routing: the deletions may fail, but the engine is closed in any case. */
    method ResetRouting() returns (result: CInt)
      requires blocker.Valid()
      modifies blocker, table
      ensures blocker.Valid() && blocker.engine.None?
      ensures tapDeviceName == "" ==> result == 0 && table.routes == old(table.routes) && table.next == old(table.next)
      ensures tapDeviceName != "" ==> result == Removal(table.exits, old(table.next), remoteProxyIp)
    {
      if tapDeviceName == "" {
        result := 0;
      } else {
        result := table.DeleteRoutes(|IPV4_SUBNETS|);
        result := table.DeleteRoutes(IPV6_SUBNETS);
        if remoteProxyIp != "" {
          result := table.RunDelete();
        }
        table.DeleteBypass(|IPV4_RESERVED_SUBNETS|);
      }
      blocker.End();
    }

    /** A reset request: without a recorded proxy address it only shuts the service down. */
    method Reset() returns (result: CInt)
      requires Valid()
      modifies this, blocker, table
      ensures blocker.Valid() && (shutDown <==> old(remoteProxyIp) == "")
      ensures if old(remoteProxyIp) == "" then
                && result == 0 && blocker.engine == old(blocker.engine)
                && remoteProxyIp == "" && monitor == old(monitor)
              else
                && blocker.engine.None? && remoteProxyIp == "" && !monitor
                && tapDeviceName == tapGatewayIp == gatewayIp == "" && tapInterfaceIndex == gatewayInterfaceIndex == 0
      ensures started == old(started) && stopped == old(stopped)
    {
      if remoteProxyIp == "" {
        shutDown := true;
        result := 0;
      } else {
        result := ResetRouting();
        tapDeviceName, tapGatewayIp, tapInterfaceIndex, remoteProxyIp, gatewayIp, gatewayInterfaceIndex := "", "", 0,
            "", "", 0;
        monitor, shutDown := false, false;
      }
    }

    /** handle_request. */
    method HandleRequest(f: Fields, w: World) returns (result: CInt)
      requires Valid()
      modifies this, blocker, table
      ensures blocker.Valid()
      ensures Step(old(Abstract()), Call(KindOf(f.action), TextOf(w.proxyText), result), Abstract())
      ensures shutDown <==> KindOf(f.action) == Kind.Reset && old(remoteProxyIp) == ""
      ensures KindOf(f.action) == Configure ==>
                (result == 0 <==> Succeeds(f, w, old(blocker.engine.Some?), old(tapDeviceName),
                                           old(tapInterfaceIndex), table.exits, old(table.next)))
    {
      result := -1;
      assert |CONFIGURE_ROUTING| != |RESET_ROUTING|;
      if monitor {
        stopped := stopped + 1;
      }
      monitor := false;
      if f.action == CONFIGURE_ROUTING {
        result := ConfigureRouting(f, w);
        monitor := true;
        started := started + 1;
      }
      if f.action == RESET_ROUTING {
        result := Reset();
      }
    }

    /** svc_message_handler for a broken pipe. */
    method Disconnect(w: World) returns (result: CInt)
      requires Valid()
      modifies this, blocker, table
      ensures Valid() && Step(old(Abstract()), Call(Kind.Reset, TextOf(w.proxyText), result), Abstract())
    {
      result := HandleRequest(EMPTY.(action := RESET_ROUTING), w);
      shutDown := false;
    }

    /** svc_message_handler for a message.  `defined` is false when taking the request failed an assertion or
        overran a field, which ends the service. */
    method HandleMessage(msg: bytes, host: Sizes.Host, w: World)
      returns (defined: bool, keep: bool, response: bytes, ghost f: Fields, ghost result: CInt)
      requires Valid()
      modifies this, blocker, table
      ensures Valid()
      ensures !defined ==> Abstract() == old(Abstract())
      ensures defined ==>
                && Step(old(Abstract()), Call(KindOf(f.action), TextOf(w.proxyText), result), Abstract())
                && response == BuildResponse(f.action, if result == 0 then 0 else 1, [])
                && (keep <==> !(KindOf(f.action) == Kind.Reset && old(remoteProxyIp) == ""))
      ensures match Grammar.ParseText(msg, false)
              case None => defined && f == EMPTY
              case Some(v) =>
                if Ledger.TreeOverruns(Sizes.Bare(host), v) then !defined
                else if Ledger.Affordable(Sizes.Bare(host), v) then
                  && Grammar.WellFormed(v)
                  && (defined <==> RequestOf(EMPTY, v).Some?)
                  && (defined ==> f == RequestOf(EMPTY, v).value)
                else defined && f == EMPTY
    {
      var request := new Request();
      var heap;
      defined, heap := ParseRequest(msg, host, request);
      f, result, keep, response := request.Value(), 0, true, [];
      if !defined {
        return;
      }
      var code := HandleRequest(request.Value(), w);
      result := code;
      response := BuildResponse(request.action, if code == 0 then 0 else 1, []);
      keep := !shutDown;
      shutDown := false;
    }
  }

  lemma RunExtends(states: seq<Snapshot>, calls: seq<Call>, c: Call, s: Snapshot)
    requires Run(states, calls) && Step(states[|calls|], c, s)
    ensures Run(states + [s], calls + [c])
  {
    var all, every := states + [s], calls + [c];
    forall i | 0 <= i < |every| ensures Step(all[i], every[i], all[i + 1]) {
      if i < |calls| {
        assert Step(states[i], calls[i], states[i + 1]);
      }
    }
  }

  /** A service that handles messages, and broken pipes where there is none, from its start: what it goes through
      is a run.  It ends early at a message that leads into undefined behaviour. */
  method Serve(router: Router, messages: seq<Option<bytes>>, worlds: seq<World>, host: Sizes.Host)
    returns (defined: bool, ghost states: seq<Snapshot>, ghost calls: seq<Call>)
    requires |messages| == |worlds| && router.Valid() && router.Abstract() == Snapshot("", false, false, 0, 0)
    modifies router, router.blocker, router.table
    ensures router.Valid() && Run(states, calls) && states[|calls|] == router.Abstract()
    ensures |calls| <= |messages| && (defined ==> |calls| == |messages|)
    ensures forall i | 0 <= i < |calls| ::
              calls[i].text == TextOf(worlds[i].proxyText) && (messages[i].None? ==> calls[i].kind == Reset)
  {
    defined, states, calls := true, [router.Abstract()], [];
    for i := 0 to |messages|
      invariant router.Valid() && Run(states, calls) && states[|calls|] == router.Abstract() && |calls| == i
      invariant forall j | 0 <= j < i ::
                  calls[j].text == TextOf(worlds[j].proxyText) && (messages[j].None? ==> calls[j].kind == Reset)
    {
      var w := worlds[i];
      ghost var c: Call;
      if messages[i].None? {
        var result := router.Disconnect(w);
        c := Call(Reset, TextOf(w.proxyText), result);
      } else {
        var keep, response;
        ghost var f, result;
        defined, keep, response, f, result := router.HandleMessage(messages[i].value, host, w);
        if !defined {
          return;
        }
        c := Call(KindOf(f.action), TextOf(w.proxyText), result);
      }
      RunExtends(states, calls, c, router.Abstract());
      states, calls := states + [router.Abstract()], calls + [c];
    }
  }

  /** A service that a reset leaves with an open engine: whenever the filter can be installed, the proxy's
      address cannot be converted and there is no gateway, the configure request returns 0, and the reset after
      it only shuts the service down. */
  method StuckRun(routes: seq<Route>, exits: nat -> CInt, f: Fields, w: World)
    returns (router: Router, first: CInt, second: CInt)
    requires f.action == CONFIGURE_ROUTING && f.proxyIp != [] && w.resolved.Some? && w.proxyText.None?
    requires Installs(w.filter, Device(f, w, "")) && Pick(w.rows, TapIndex(w, 0)) == NO_ROW
    ensures first == 0 && second == 0 && router.shutDown
    ensures router.blocker.engine.Some? && router.remoteProxyIp == ""
  {
    router := new Router(routes, exits);
    first := router.HandleRequest(f, w);
    second := router.HandleRequest(EMPTY.(action := RESET_ROUTING), w);
  }

  /** Such an input: an empty forwarding table and one adapter, with the default name. */
  method StuckWitness() returns (router: Router, first: CInt, second: CInt)
    ensures first == 0 && second == 0 && router.blocker.engine.Some?
  {
    var filter := Answers(0, [DEVICE_NAME], 0, 1, 0, 0, 1, 0, 2);
    var f := EMPTY.(action := CONFIGURE_ROUTING, proxyIp := [0x31]);
    var w := World(Some(1), None, filter, None, None, None, None, [], None);
    assert filter.adapters[0] == DEVICE_NAME;
    router, first, second := StuckRun([], _ => 0, f, w);
  }
}
