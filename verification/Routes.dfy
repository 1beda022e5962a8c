/** The IPv4 routes that the service adds, and what longest-prefix matching makes of them. */
module Routes {
  import opened Bytes

  type Address = bv32

  datatype Prefix = Prefix(address: Address, length: nat)

  /** Where a route leads: to the TAP device, or through the gateway of the real adapter. */
  datatype Hop = Tap | Gateway | Other

  datatype Route = Route(prefix: Prefix, hop: Hop)

  /** The network mask of a prefix length. */
  function Mask(length: nat): Address {
    if length == 0 then 0 else if length >= 32 then 0xFFFF_FFFF else 0xFFFF_FFFF << (32 - length)
  }

  predicate Matches(p: Prefix, a: Address) {
    a & Mask(p.length) == p.address & Mask(p.length)
  }

  /** The redirect: the two halves of the address space. */
  const IPV4_SUBNETS: seq<Prefix> := [Prefix(0x0000_0000, 1), Prefix(0x8000_0000, 1)]

  const IPV4_RESERVED_SUBNETS: seq<Prefix> := [
    Prefix(0x0000_0000, 8),   // 0.0.0.0
    Prefix(0x0A00_0000, 8),   // 10.0.0.0
    Prefix(0x6440_0000, 10),  // 100.64.0.0
    Prefix(0xA9FE_0000, 16),  // 169.254.0.0
    Prefix(0xAC10_0000, 12),  // 172.16.0.0
    Prefix(0xC000_0000, 24),  // 192.0.0.0
    Prefix(0xC000_0200, 24),  // 192.0.2.0
    Prefix(0xC01F_C400, 24),  // 192.31.196.0
    Prefix(0xC034_C100, 24),  // 192.52.193.0
    Prefix(0xC058_6300, 24),  // 192.88.99.0
    Prefix(0xC0A8_0000, 16),  // 192.168.0.0
    Prefix(0xC0AF_3000, 24),  // 192.175.48.0
    Prefix(0xC612_0000, 15),  // 198.18.0.0
    Prefix(0xC633_6400, 24),  // 198.51.100.0
    Prefix(0xCB00_7100, 24),  // 203.0.113.0
    Prefix(0xF000_0000, 4)    // 240.0.0.0
  ]

  // ----- the routing table -----

  /** The table with one route more; a route with the same prefix is replaced. */
  function Put(table: seq<Route>, r: Route): seq<Route> {
    if |table| == 0 then [r]
    else if table[0].prefix == r.prefix then Put(table[1..], r)
    else [table[0]] + Put(table[1..], r)
  }

  lemma {:induction false} PutHas(table: seq<Route>, r: Route)
    ensures r in Put(table, r) && forall q | q in Put(table, r) :: q == r || (q in table && q.prefix != r.prefix)
    ensures forall q | q in table && q.prefix != r.prefix :: q in Put(table, r)
    decreases |table|
  {
    if |table| > 0 {
      PutHas(table[1..], r);
      assert table == [table[0]] + table[1..];
    }
  }

  /** The table after the first `n` prefixes have been routed to `hop`. */
  function PutAll(table: seq<Route>, prefixes: seq<Prefix>, n: nat, hop: Hop): seq<Route>
    requires n <= |prefixes|
  {
    if n == 0 then table else Put(PutAll(table, prefixes, n - 1, hop), Route(prefixes[n - 1], hop))
  }

  /** The longest matching prefix decides; of equally long ones the first in the table. */
  function Lookup(table: seq<Route>, a: Address): Option<Route> {
    if |table| == 0 then None
    else
      var rest := Lookup(table[1..], a);
      if !Matches(table[0].prefix, a) then rest
      else if rest.None? || rest.value.prefix.length <= table[0].prefix.length then Some(table[0])
      else rest
  }

  /** Lookup finds a matching route of maximal length, whenever some route matches. */
  lemma {:induction false} LookupIsLongest(table: seq<Route>, a: Address)
    ensures Lookup(table, a).Some? <==> exists q :: q in table && Matches(q.prefix, a)
    ensures Lookup(table, a).Some? ==>
              var r := Lookup(table, a).value;
              r in table && Matches(r.prefix, a)
              && forall q | q in table && Matches(q.prefix, a) :: q.prefix.length <= r.prefix.length
  {
    if |table| > 0 {
      LookupIsLongest(table[1..], a);
      assert table == [table[0]] + table[1..];
      assert table[0] in table;
    }
  }

  lemma {:induction false} PutAllHas(table: seq<Route>, prefixes: seq<Prefix>, n: nat, hop: Hop)
    requires n <= |prefixes|
    ensures forall k | 0 <= k < n :: Route(prefixes[k], hop) in PutAll(table, prefixes, n, hop)
    ensures forall q | q in PutAll(table, prefixes, n, hop) ::
              (q.prefix in prefixes && q.hop == hop) || q in table
    ensures forall q | q in table && q.prefix !in prefixes :: q in PutAll(table, prefixes, n, hop)
  {
    if n > 0 {
      PutAllHas(table, prefixes, n - 1, hop);
      PutHas(PutAll(table, prefixes, n - 1, hop), Route(prefixes[n - 1], hop));
    }
  }

  // ----- the commands -----

  const IPV6_SUBNETS := 3

  /** The commands that add routes.  Their text is not part of the model: a command is the IPv4 route that it
      names, or it is about IPv6, or the address it should name is empty. */
  datatype Command =
    | NetshAdd(route: Route)
    | NetshSet(route: Route)
    | RouteChange(route: Route)
    | Ipv6Add(subnet: nat)
    | Ipv6Set(subnet: nat)
    | Nameless
  {
    predicate NamesRoute() {
      NetshAdd? || NetshSet? || RouteChange?
    }

    predicate IsIpv6() {
      Ipv6Add? || Ipv6Set?
    }
  }

  /** A series of commands: how many items were dealt with, the last exit code, and the commands run before
      the next one. */
  datatype Trial = Trial(done: nat, code: CInt, next: nat)

  /** Each of `n` items is tried with one command and, if that fails, with another; the first item for which
      both fail ends it.  `exits` are the exit codes of all commands, `at` the first one's place among them. */
  function Tries(exits: nat -> CInt, at: nat, n: nat): Trial {
    if n == 0 then Trial(0, 0, at)
    else
      var t := Tries(exits, at, n - 1);
      if t.code != 0 then t
      else if exits(t.next) == 0 then Trial(n, 0, t.next + 1)
      else if exits(t.next + 1) == 0 then Trial(n, 0, t.next + 2)
      else Trial(n - 1, exits(t.next + 1), t.next + 2)
  }

  /** Each of `n` items is tried with one command; the first failure ends it. */
  function Deletes(exits: nat -> CInt, at: nat, n: nat): Trial {
    if n == 0 then Trial(0, 0, at)
    else
      var t := Deletes(exits, at, n - 1);
      if t.code != 0 then t
      else if exits(t.next) == 0 then Trial(n, 0, t.next + 1)
      else Trial(n - 1, exits(t.next), t.next + 1)
  }

  /** Exit code 0 means that all items were dealt with. */
  lemma {:induction false} TriesComplete(exits: nat -> CInt, at: nat, n: nat)
    ensures Tries(exits, at, n).done <= n && (Tries(exits, at, n).code == 0 <==> Tries(exits, at, n).done == n)
    decreases n
  {
    if n > 0 {
      TriesComplete(exits, at, n - 1);
    }
  }

  /** The items behind the first `m`. */
  lemma {:induction false} TriesAppend(exits: nat -> CInt, at: nat, m: nat, mid: nat, k: nat)
    requires Tries(exits, at, m) == Trial(m, 0, mid)
    ensures var t := Tries(exits, mid, k); Tries(exits, at, m + k) == Trial(m + t.done, t.code, t.next)
    decreases k
  {
    if k > 0 {
      TriesAppend(exits, at, m, mid, k - 1);
    }
  }

  /** One more item. */
  lemma {:induction false} TriesNext(exits: nat -> CInt, at: nat, m: nat, mid: nat)
    requires Tries(exits, at, m) == Trial(m, 0, mid)
    ensures var t := Tries(exits, mid, 1); Tries(exits, at, m + 1) == Trial(m + t.done, t.code, t.next)
  {
    TriesAppend(exits, at, m, mid, 1);
  }

  /** The command at `a` has exit code 0, or it fails and the next one has; behind them is `b`. */
  predicate Passed(exits: nat -> CInt, a: nat, b: nat) {
    if exits(a) == 0 then b == a + 1 else exits(a + 1) == 0 && b == a + 2
  }

  /** Each of `n` items passes.  `p` are the places where the items' commands begin, and where the last of them
      end. */
  predicate Passes(exits: nat -> CInt, at: nat, n: nat, p: seq<nat>) {
    |p| == n + 1 && p[0] == at && forall i | 0 <= i < n :: Passed(exits, p[i], p[i + 1])
  }

  lemma PassesBefore(exits: nat -> CInt, at: nat, n: nat, p: seq<nat>)
    requires n > 0 && |p| == n + 1
    ensures Passes(exits, at, n, p) <==> Passes(exits, at, n - 1, p[..n]) && Passed(exits, p[n - 1], p[n])
  {
    var before := p[..n];
    if Passes(exits, at, n, p) {
      forall i | 0 <= i < n - 1 ensures Passed(exits, before[i], before[i + 1]) {
        assert Passed(exits, p[i], p[i + 1]);
      }
      assert Passed(exits, p[n - 1], p[n - 1 + 1]);
    }
    if Passes(exits, at, n - 1, before) && Passed(exits, p[n - 1], p[n]) {
      forall i | 0 <= i < n ensures Passed(exits, p[i], p[i + 1]) {
        assert i < n - 1 ==> Passed(exits, before[i], before[i + 1]);
      }
    }
  }

  lemma {:induction false} PassesTries(exits: nat -> CInt, at: nat, n: nat, p: seq<nat>)
    requires Passes(exits, at, n, p)
    ensures Tries(exits, at, n) == Trial(n, 0, p[n])
    decreases n
  {
    if n > 0 {
      PassesBefore(exits, at, n, p);
      PassesTries(exits, at, n - 1, p[..n]);
    }
  }

  lemma {:induction false} TriesPasses(exits: nat -> CInt, at: nat, n: nat) returns (p: seq<nat>)
    requires Tries(exits, at, n).code == 0
    ensures Passes(exits, at, n, p) && Tries(exits, at, n) == Trial(n, 0, p[n])
    decreases n
  {
    p := [at];
    if n > 0 {
      var before := TriesPasses(exits, at, n - 1);
      p := before + [Tries(exits, at, n).next];
      assert p[..n] == before;
      PassesBefore(exits, at, n, p);
    }
  }

  lemma {:induction false} TriesForward(exits: nat -> CInt, at: nat, n: nat)
    ensures Tries(exits, at, n).next >= at
    decreases n
  {
    if n > 0 {
      TriesForward(exits, at, n - 1);
    }
  }

  lemma {:induction false} TriesFails(exits: nat -> CInt, at: nat, n: nat)
    requires Tries(exits, at, n).code != 0
    ensures var t := Tries(exits, at, n);
      t.next >= at + 2 && t.code == exits(t.next - 1) && exits(t.next - 2) != 0
    decreases n
  {
    if Tries(exits, at, n - 1).code != 0 {
      TriesFails(exits, at, n - 1);
    } else {
      TriesForward(exits, at, n - 1);
    }
  }

  /** Exit code 0 means that every item passes; any other is that of the last command run, before which the other
      command for the same item had failed too. */
  lemma {:induction false} TriesExactly(exits: nat -> CInt, at: nat, n: nat)
    ensures Tries(exits, at, n).code == 0 <==> exists p :: Passes(exits, at, n, p)
    ensures forall p | Passes(exits, at, n, p) :: Tries(exits, at, n).next == p[n]
    ensures var t := Tries(exits, at, n);
      t.code != 0 ==> t.next >= at + 2 && t.code == exits(t.next - 1) && exits(t.next - 2) != 0
  {
    forall p | Passes(exits, at, n, p) ensures Tries(exits, at, n) == Trial(n, 0, p[n]) {
      PassesTries(exits, at, n, p);
    }
    if Tries(exits, at, n).code == 0 {
      var p := TriesPasses(exits, at, n);
    } else {
      TriesFails(exits, at, n);
    }
  }

  /** After a failure nothing more is tried. */
  lemma {:induction false} TriesStop(exits: nat -> CInt, at: nat, m: nat, n: nat)
    requires m <= n && Tries(exits, at, m).code != 0
    ensures Tries(exits, at, n) == Tries(exits, at, m)
    decreases n
  {
    if m < n {
      TriesStop(exits, at, m, n - 1);
    }
  }

  /** Exit code 0 means that every command had it; any other is that of the first command that failed. */
  lemma {:induction false} DeletesExactly(exits: nat -> CInt, at: nat, n: nat)
    ensures var t := Deletes(exits, at, n);
      if t.code == 0 then t.next == at + n && forall i | at <= i < at + n :: exits(i) == 0
      else at < t.next <= at + n && t.code == exits(t.next - 1) && forall i | at <= i < t.next - 1 :: exits(i) == 0
    decreases n
  {
    if n > 0 {
      DeletesExactly(exits, at, n - 1);
    }
  }

  lemma {:induction false} DeletesStop(exits: nat -> CInt, at: nat, m: nat, n: nat)
    requires m <= n && Deletes(exits, at, m).code != 0
    ensures Deletes(exits, at, n) == Deletes(exits, at, m)
    decreases n
  {
    if m < n {
      DeletesStop(exits, at, m, n - 1);
    }
  }

  /** The system's routing table, changed only by running commands.  `exits` are the exit codes of the commands
      in the order in which they will be run, `next` the number run so far. */
  class Table {
    const exits: nat -> CInt
    var routes: seq<Route>
    var next: nat

    constructor (routes: seq<Route>, exits: nat -> CInt)
      ensures this.routes == routes && this.exits == exits && next == 0
    {
      this.routes := routes;
      this.exits := exits;
      next := 0;
    }

    /** run_command_wrapper: exit code 0 means that the route which the command names is present, any other that
        the table is unchanged.  What a nameless command does is left open. */
    method Run(c: Command) returns (code: CInt)
      modifies this
      ensures code == exits(old(next)) && next == old(next) + 1
      ensures c.IsIpv6() ==> routes == old(routes)
      ensures c.NamesRoute() ==>
                routes == if code == 0 then Put(old(routes), c.route) else old(routes)
    {
      code := exits(next);
      next := next + 1;
      if c.Nameless? {
        routes := *;
      } else if code == 0 && c.NamesRoute() {
        routes := Put(routes, c.route);
      }
    }

    /** A command and, if it fails, another one. */
    method Try(first: Command, second: Command) returns (code: CInt)
      modifies this
      ensures var t := Tries(exits, old(next), 1); code == t.code && next == t.next && (code == 0 <==> t.done == 1)
      ensures first.IsIpv6() && second.IsIpv6() ==> routes == old(routes)
      ensures first.NamesRoute() && second.NamesRoute() && first.route == second.route ==>
                routes == if code == 0 then Put(old(routes), first.route) else old(routes)
    {
      assert Tries(exits, next, 0) == Trial(0, 0, next);
      code := Run(first);
      if code != 0 {
        code := Run(second);
      }
    }

    /** A command that deletes a route; what it leaves of the table is left open. */
    method RunDelete() returns (code: CInt)
      modifies this
      ensures code == exits(old(next)) && next == old(next) + 1
    {
      code := exits(next);
      next := next + 1;
      routes := *;
    }

    /** add_ipv4_redirect, for a list of subnets: each is added or, failing that, set; the first failure of
        both ends it. */
    method AddRedirect(subnets: seq<Prefix>) returns (result: CInt)
      modifies this
      ensures var t := Tries(exits, old(next), |subnets|);
        && result == t.code && next == t.next && t.done <= |subnets| && (result == 0 <==> t.done == |subnets|)
        && routes == PutAll(old(routes), subnets, t.done, Tap)
    {
      result := 0;
      TriesComplete(exits, next, |subnets|);
      var i := 0;
      while i < |subnets|
        invariant i <= |subnets| && result == 0 && Tries(exits, old(next), i) == Trial(i, 0, next)
        invariant routes == PutAll(old(routes), subnets, i, Tap)
      {
        var r := Route(subnets[i], Tap);
        TriesNext(exits, old(next), i, next);
        result := Try(NetshAdd(r), NetshSet(r));
        if result != 0 {
          TriesStop(exits, old(next), i + 1, |subnets|);
          break;
        }
        i := i + 1;
      }
    }

    /** stop_routing_ipv6. */
    method StopIpv6() returns (result: CInt)
      modifies this
      ensures var t := Tries(exits, old(next), IPV6_SUBNETS); result == t.code && next == t.next
      ensures routes == old(routes)
    {
      result := 0;
      var i := 0;
      while i < IPV6_SUBNETS
        invariant i <= IPV6_SUBNETS && result == 0 && Tries(exits, old(next), i) == Trial(i, 0, next)
        invariant routes == old(routes)
      {
        TriesNext(exits, old(next), i, next);
        result := Try(Ipv6Add(i), Ipv6Set(i));
        if result != 0 {
          TriesStop(exits, old(next), i + 1, IPV6_SUBNETS);
          break;
        }
        i := i + 1;
      }
    }

    /** add_or_update_proxy_route, for the proxy's address, or for none when its text is empty. */
    method AddProxyRoute(proxy: Option<Address>) returns (result: CInt)
      modifies this
      ensures var t := Tries(exits, old(next), 1); result == t.code && next == t.next
      ensures proxy.Some? ==>
                routes == if result == 0 then Put(old(routes), Route(Prefix(proxy.value, 32), Gateway))
                          else old(routes)
    {
      if proxy.None? {
        result := Try(Nameless, Nameless);
      } else {
        var r := Route(Prefix(proxy.value, 32), Gateway);
        result := Try(RouteChange(r), NetshAdd(r));
      }
    }

    /** add_or_update_reserved_subnet_bypass, for a list of reserved subnets. */
    method AddReservedBypass(subnets: seq<Prefix>) returns (result: CInt)
      modifies this
      ensures var t := Tries(exits, old(next), |subnets|);
        && result == t.code && next == t.next && t.done <= |subnets| && (result == 0 <==> t.done == |subnets|)
        && routes == PutAll(old(routes), subnets, t.done, Gateway)
    {
      result := 0;
      TriesComplete(exits, next, |subnets|);
      var index := 0;
      while index < |subnets|
        invariant index <= |subnets| && result == 0 && Tries(exits, old(next), index) == Trial(index, 0, next)
        invariant routes == PutAll(old(routes), subnets, index, Gateway)
      {
        var r := Route(subnets[index], Gateway);
        TriesNext(exits, old(next), index, next);
        result := Try(RouteChange(r), NetshAdd(r));
        if result != 0 {
          TriesStop(exits, old(next), index + 1, |subnets|);
          break;
        }
        index := index + 1;
      }
    }

    /** remove_ipv4_redirect and start_routing_ipv6: `n` routes are deleted, up to the first failure. */
    method DeleteRoutes(n: nat) returns (result: CInt)
      modifies this
      ensures var t := Deletes(exits, old(next), n); result == t.code && next == t.next
    {
      result := 0;
      var i := 0;
      while i < n
        invariant i <= n && result == 0 && Deletes(exits, old(next), i) == Trial(i, 0, next)
      {
        result := RunDelete();
        if result != 0 {
          DeletesStop(exits, old(next), i + 1, n);
          break;
        }
        i := i + 1;
      }
    }

    /** remove_reserved_subnet_bypass: every deletion is tried and its exit code ignored. */
    method DeleteBypass(n: nat)
      modifies this
      ensures next == old(next) + n
    {
      for i := 0 to n
        invariant next == old(next) + i
      {
        var code := RunDelete();
      }
    }
  }

  // ----- route selection -----

  /** The table after all additions have succeeded. */
  function Configured(table: seq<Route>, proxy: Address): seq<Route> {
    ConfiguredWith(table, proxy, IPV4_SUBNETS, IPV4_RESERVED_SUBNETS)
  }

  function ConfiguredWith(table: seq<Route>, proxy: Address, halves: seq<Prefix>, reserved: seq<Prefix>): seq<Route> {
    PutAll(Put(PutAll(table, halves, |halves|, Tap), Route(Prefix(proxy, 32), Gateway)), reserved, |reserved|, Gateway)
  }

  /** The reserved addresses, by their ranges. */
  predicate Reserved(a: Address) {
    || a <= 0x00FF_FFFF                   // 0.0.0.0/8
    || 0x0A00_0000 <= a <= 0x0AFF_FFFF    // 10.0.0.0/8
    || 0x6440_0000 <= a <= 0x647F_FFFF    // 100.64.0.0/10
    || 0xA9FE_0000 <= a <= 0xA9FE_FFFF    // 169.254.0.0/16
    || 0xAC10_0000 <= a <= 0xAC1F_FFFF    // 172.16.0.0/12
    || 0xC000_0000 <= a <= 0xC000_00FF    // 192.0.0.0/24
    || 0xC000_0200 <= a <= 0xC000_02FF    // 192.0.2.0/24
    || 0xC01F_C400 <= a <= 0xC01F_C4FF    // 192.31.196.0/24
    || 0xC034_C100 <= a <= 0xC034_C1FF    // 192.52.193.0/24
    || 0xC058_6300 <= a <= 0xC058_63FF    // 192.88.99.0/24
    || 0xC0A8_0000 <= a <= 0xC0A8_FFFF    // 192.168.0.0/16
    || 0xC0AF_3000 <= a <= 0xC0AF_30FF    // 192.175.48.0/24
    || 0xC612_0000 <= a <= 0xC613_FFFF    // 198.18.0.0/15
    || 0xC633_6400 <= a <= 0xC633_64FF    // 198.51.100.0/24
    || 0xCB00_7100 <= a <= 0xCB00_71FF    // 203.0.113.0/24
    || 0xF000_0000 <= a                   // 240.0.0.0/4
  }

  lemma Ranges1(a: Address)
    ensures Matches(Prefix(0x0000_0000, 8), a) <==> a <= 0x00FF_FFFF
    ensures Matches(Prefix(0x0A00_0000, 8), a) <==> 0x0A00_0000 <= a <= 0x0AFF_FFFF
  {
  }

  lemma Ranges2(a: Address)
    ensures Matches(Prefix(0x6440_0000, 10), a) <==> 0x6440_0000 <= a <= 0x647F_FFFF
    ensures Matches(Prefix(0xA9FE_0000, 16), a) <==> 0xA9FE_0000 <= a <= 0xA9FE_FFFF
  {
  }

  lemma Ranges3(a: Address)
    ensures Matches(Prefix(0xAC10_0000, 12), a) <==> 0xAC10_0000 <= a <= 0xAC1F_FFFF
    ensures Matches(Prefix(0xC000_0000, 24), a) <==> 0xC000_0000 <= a <= 0xC000_00FF
  {
  }

  lemma Ranges4(a: Address)
    ensures Matches(Prefix(0xC000_0200, 24), a) <==> 0xC000_0200 <= a <= 0xC000_02FF
    ensures Matches(Prefix(0xC01F_C400, 24), a) <==> 0xC01F_C400 <= a <= 0xC01F_C4FF
  {
  }

  lemma Ranges5(a: Address)
    ensures Matches(Prefix(0xC034_C100, 24), a) <==> 0xC034_C100 <= a <= 0xC034_C1FF
    ensures Matches(Prefix(0xC058_6300, 24), a) <==> 0xC058_6300 <= a <= 0xC058_63FF
  {
  }

  lemma Ranges6(a: Address)
    ensures Matches(Prefix(0xC0A8_0000, 16), a) <==> 0xC0A8_0000 <= a <= 0xC0A8_FFFF
    ensures Matches(Prefix(0xC0AF_3000, 24), a) <==> 0xC0AF_3000 <= a <= 0xC0AF_30FF
  {
  }

  lemma Ranges7(a: Address)
    ensures Matches(Prefix(0xC612_0000, 15), a) <==> 0xC612_0000 <= a <= 0xC613_FFFF
    ensures Matches(Prefix(0xC633_6400, 24), a) <==> 0xC633_6400 <= a <= 0xC633_64FF
  {
  }

  lemma Ranges8(a: Address)
    ensures Matches(Prefix(0xCB00_7100, 24), a) <==> 0xCB00_7100 <= a <= 0xCB00_71FF
    ensures Matches(Prefix(0xF000_0000, 4), a) <==> 0xF000_0000 <= a
  {
  }

  lemma ReservedAre(p: Prefix)
    ensures p in IPV4_RESERVED_SUBNETS <==>
              || p == Prefix(0x0000_0000, 8)
              || p == Prefix(0x0A00_0000, 8)
              || p == Prefix(0x6440_0000, 10)
              || p == Prefix(0xA9FE_0000, 16)
              || p == Prefix(0xAC10_0000, 12)
              || p == Prefix(0xC000_0000, 24)
              || p == Prefix(0xC000_0200, 24)
              || p == Prefix(0xC01F_C400, 24)
              || p == Prefix(0xC034_C100, 24)
              || p == Prefix(0xC058_6300, 24)
              || p == Prefix(0xC0A8_0000, 16)
              || p == Prefix(0xC0AF_3000, 24)
              || p == Prefix(0xC612_0000, 15)
              || p == Prefix(0xC633_6400, 24)
              || p == Prefix(0xCB00_7100, 24)
              || p == Prefix(0xF000_0000, 4)
  {
  }

  /** The subnet of a reserved address. */
  function Covering(a: Address): Prefix {
    if a <= 0x00FF_FFFF then Prefix(0x0000_0000, 8)
    else if 0x0A00_0000 <= a <= 0x0AFF_FFFF then Prefix(0x0A00_0000, 8)
    else if 0x6440_0000 <= a <= 0x647F_FFFF then Prefix(0x6440_0000, 10)
    else if 0xA9FE_0000 <= a <= 0xA9FE_FFFF then Prefix(0xA9FE_0000, 16)
    else if 0xAC10_0000 <= a <= 0xAC1F_FFFF then Prefix(0xAC10_0000, 12)
    else if 0xC000_0000 <= a <= 0xC000_00FF then Prefix(0xC000_0000, 24)
    else if 0xC000_0200 <= a <= 0xC000_02FF then Prefix(0xC000_0200, 24)
    else if 0xC01F_C400 <= a <= 0xC01F_C4FF then Prefix(0xC01F_C400, 24)
    else if 0xC034_C100 <= a <= 0xC034_C1FF then Prefix(0xC034_C100, 24)
    else if 0xC058_6300 <= a <= 0xC058_63FF then Prefix(0xC058_6300, 24)
    else if 0xC0A8_0000 <= a <= 0xC0A8_FFFF then Prefix(0xC0A8_0000, 16)
    else if 0xC0AF_3000 <= a <= 0xC0AF_30FF then Prefix(0xC0AF_3000, 24)
    else if 0xC612_0000 <= a <= 0xC613_FFFF then Prefix(0xC612_0000, 15)
    else if 0xC633_6400 <= a <= 0xC633_64FF then Prefix(0xC633_6400, 24)
    else if 0xCB00_7100 <= a <= 0xCB00_71FF then Prefix(0xCB00_7100, 24)
    else Prefix(0xF000_0000, 4)
  }

  /** The reserved subnets cover exactly these ranges. */
  lemma ReservedRanges(a: Address)
    ensures Reserved(a) <==> exists p :: p in IPV4_RESERVED_SUBNETS && Matches(p, a)
  {
    Ranges1(a);
    Ranges2(a);
    Ranges3(a);
    Ranges4(a);
    Ranges5(a);
    Ranges6(a);
    Ranges7(a);
    Ranges8(a);
    forall p ensures p in IPV4_RESERVED_SUBNETS && Matches(p, a) ==> Reserved(a) {
      ReservedAre(p);
    }
    if Reserved(a) {
      var p := Covering(a);
      ReservedAre(p);
    }
  }

  lemma SubnetLengths()
    ensures Lengths(IPV4_SUBNETS, IPV4_RESERVED_SUBNETS)
  {
  }

  /** Every address lies in one of the two halves. */
  lemma Halves(a: Address)
    ensures Matches(IPV4_SUBNETS[0], a) || Matches(IPV4_SUBNETS[1], a)
  {
    assert Mask(1) == 0x8000_0000;
    HighBit(a);
  }

  lemma HighBit(a: Address)
    ensures a & 0x8000_0000 == 0 || a & 0x8000_0000 == 0x8000_0000
  {
  }

  lemma FullMask(a: Address, p: Address)
    ensures Matches(Prefix(p, 32), a) <==> a == p
  {
    assert a & 0xFFFF_FFFF == a && p & 0xFFFF_FFFF == p;
  }

  predicate Lengths(halves: seq<Prefix>, reserved: seq<Prefix>) {
    && (forall p | p in reserved :: 4 <= p.length < 32)
    && (forall p | p in halves :: p.length == 1)
  }

  /** What the configured table holds. */
  lemma ConfiguredRoutes(
    table: seq<Route>, proxy: Address, halves: seq<Prefix>, reserved: seq<Prefix>, t: seq<Route>)
    requires Lengths(halves, reserved) && t == ConfiguredWith(table, proxy, halves, reserved)
    ensures Route(Prefix(proxy, 32), Gateway) in t
    ensures forall p | p in halves :: Route(p, Tap) in t
    ensures forall p | p in reserved :: Route(p, Gateway) in t
    ensures forall q | q in t ::
              || (q.prefix in reserved && q.hop == Gateway)
              || q == Route(Prefix(proxy, 32), Gateway)
              || (q.prefix in halves && q.hop == Tap)
              || q in table
  {
    var redirected := PutAll(table, halves, |halves|, Tap);
    var direct := Put(redirected, Route(Prefix(proxy, 32), Gateway));
    PutAllHas(table, halves, |halves|, Tap);
    PutHas(redirected, Route(Prefix(proxy, 32), Gateway));
    PutAllHas(direct, reserved, |reserved|, Gateway);
    forall p | p in halves ensures Route(p, Tap) in t {
      var k :| 0 <= k < |halves| && halves[k] == p;
      assert Route(halves[k], Tap) in redirected;
      assert Route(p, Tap) in direct;
    }
    forall p | p in reserved ensures Route(p, Gateway) in t {
      var k :| 0 <= k < |reserved| && reserved[k] == p;
      assert Route(reserved[k], Gateway) in t;
    }
  }

  /** Longest-prefix matching over a table with these routes. */
  lemma {:induction false} Selection(
    table: seq<Route>, proxy: Address, halves: seq<Prefix>, reserved: seq<Prefix>, a: Address, h: Prefix)
    requires Lengths(halves, reserved) && h in halves && Matches(h, a)
    requires forall q | q in table :: q.prefix.length == 0
    ensures var r := Lookup(ConfiguredWith(table, proxy, halves, reserved), a);
      r.Some? && r.value.hop
                 == if a == proxy || (exists p :: p in reserved && Matches(p, a)) then Gateway else Tap
  {
    var t := ConfiguredWith(table, proxy, halves, reserved);
    ConfiguredRoutes(table, proxy, halves, reserved, t);
    LookupIsLongest(t, a);
    FullMask(a, proxy);
    assert Route(h, Tap) in t && Matches(Route(h, Tap).prefix, a);
    if a == proxy {
      assert Matches(Route(Prefix(proxy, 32), Gateway).prefix, a);
    } else if p :| p in reserved && Matches(p, a) {
      assert Matches(Route(p, Gateway).prefix, a);
    }
  }

  /** Over a table that held default routes only, the proxy and every reserved subnet are reached through the
      gateway, and every other address through the TAP device. */
  lemma {:induction false} RouteSelection(table: seq<Route>, proxy: Address, a: Address)
    requires forall q | q in table :: q.prefix.length == 0
    ensures var r := Lookup(Configured(table, proxy), a);
      r.Some? && r.value.hop == if a == proxy || Reserved(a) then Gateway else Tap
  {
    ReservedRanges(a);
    SubnetLengths();
    Halves(a);
    var h := if Matches(IPV4_SUBNETS[0], a) then IPV4_SUBNETS[0] else IPV4_SUBNETS[1];
    Selection(table, proxy, IPV4_SUBNETS, IPV4_RESERVED_SUBNETS, a, h);
  }
}
