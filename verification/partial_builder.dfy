/**
 * The earlier, partial `generate_topology` of topology_f10.py: it names the
 * hosts with `10.6.s.1` addresses, numbers the switches of every level,
 * wires each level-0 switch to its hosts and assigns their ports, and adds
 * no switch-to-switch edges at all. The function has no `return`, so its
 * caller receives None; the model returns the state it builds.
 */
module PartialBuilder {
  import opened Wrappers
  import opened Bits
  import opened Text
  import opened Address
  import opened Fabric
  import opened Ports

  /** Python's `b ** e` on naturals. */
  function Power(b: nat, e: nat): nat
  {
    if e == 0 then 1 else b * Power(b, e - 1)
  }

  lemma {:induction false} PowerAdd(b: nat, e1: nat, e2: nat)
    ensures Power(b, e1 + e2) == Power(b, e1) * Power(b, e2)
  {
    if e1 > 0 {
      var x, y := Power(b, e1 - 1), Power(b, e2);
      PowerAdd(b, e1 - 1, e2);
      assert Power(b, e1 + e2) == b * (x * y);
      MulAssociates(b, x, y);
    }
  }

  lemma MulAssociates(a: int, b: int, c: int)
    ensures a * (b * c) == (a * b) * c
  {
  }

  /** `n_switches_per_layer = 2 * p ** L`. */
  function LayerSize(p: nat, depth: nat): nat
  {
    2 * Power(p, depth)
  }

  /** `total_switches = n_switches_per_layer * L + n_switches_per_layer / 2`. */
  function TotalSwitches(p: nat, depth: nat): nat
  {
    LayerSize(p, depth) * depth + LayerSize(p, depth) / 2
  }

  /** `num_groups = 2 * p ** (L - i)` at level i. */
  function Groups(p: nat, depth: nat, i: nat): nat
    requires i <= depth
  {
    2 * Power(p, depth - i)
  }

  /** `num_switches_per_group = p ** i` at level i. */
  function GroupSize(p: nat, i: nat): nat
  {
    Power(p, i)
  }

  /** `i * num_groups * num_switches_per_group + m * num_switches_per_group + j`. */
  function SwitchNumber(p: nat, depth: nat, i: nat, m: nat, j: nat): nat
    requires i <= depth
  {
    i * Groups(p, depth, i) * GroupSize(p, i) + m * GroupSize(p, i) + j
  }

  /** The groups of a level, each of `p ** i` switches, fill exactly one layer. */
  lemma GroupsFillLayer(p: nat, depth: nat, i: nat)
    requires i <= depth
    ensures Groups(p, depth, i) * GroupSize(p, i) == LayerSize(p, depth)
  {
    PowerAdd(p, depth - i, i);
  }

  /**
   * Switch j of group m on level i < L lies in the i-th block of
   * `n_switches_per_layer` numbers, and the top switches follow level L - 1.
   */
  lemma SwitchNumberInBlock(p: nat, depth: nat, i: nat, m: nat, j: nat)
    requires i <= depth && j < GroupSize(p, i)
    requires (i < depth && m < Groups(p, depth, i)) || (i == depth && m == 0 && j < LayerSize(p, depth) / 2)
    ensures i * LayerSize(p, depth) <= SwitchNumber(p, depth, i, m, j)
    ensures i < depth ==> SwitchNumber(p, depth, i, m, j) < (i + 1) * LayerSize(p, depth)
    ensures i == depth ==> SwitchNumber(p, depth, i, m, j) < TotalSwitches(p, depth)
  {
    var g, s, n := Groups(p, depth, i), GroupSize(p, i), LayerSize(p, depth);
    GroupsFillLayer(p, depth, i);
    MulAssociates(i, g, s);
    assert SwitchNumber(p, depth, i, m, j) == i * n + (m * s + j);
    if i < depth {
      MulLe(m + 1, g, s);
      assert (m + 1) * s == m * s + s;
      assert (i + 1) * n == i * n + n;
    } else {
      assert m * s == 0;
      assert TotalSwitches(p, depth) == i * n + n / 2;
    }
  }

  /** Distinct (group, index) pairs on one level get distinct switch numbers. */
  lemma SwitchNumberInjective(p: nat, depth: nat, i: nat, m: nat, j: nat, m': nat, j': nat)
    requires i <= depth && j < GroupSize(p, i) && j' < GroupSize(p, i)
    requires SwitchNumber(p, depth, i, m, j) == SwitchNumber(p, depth, i, m', j')
    ensures m == m' && j == j'
  {
    var s := GroupSize(p, i);
    DivModOf(m, s, j);
    DivModOf(m', s, j');
  }

  /**
   * At depth 2 the numbering agrees with topology.py: the switch count is the
   * same and switch j of group m on level i has level i there.
   */
  lemma NumberingAgreesWithFabric(k: nat, i: nat, m: nat, j: nat)
    requires k >= 2 && i <= 2 && j < GroupSize(k / 2, i)
    requires (i < 2 && m < Groups(k / 2, 2, i)) || (i == 2 && m == 0 && j < LayerSize(k / 2, 2) / 2)
    ensures TotalSwitches(k / 2, 2) == SwitchCount(k)
    ensures LevelOf(k, SwitchNumber(k / 2, 2, i, m, j)) == i
  {
    var p := k / 2;
    assert Power(p, 1) == p;
    assert Power(p, 2) == p * Power(p, 1);
    assert LayerSize(p, 2) == PerLayer(k);
    SwitchNumberInBlock(p, 2, i, m, j);
  }

  // -------------------------------------------------------------- hosts

  /** `'10.6.' + str(s) + '.1'`: the address text of host s. */
  function HostIpText(s: nat): string
  {
    "10.6." + NatToString(s) + ".1"
  }

  lemma HostIpTextIsQuad(s: nat)
    ensures HostIpText(s) == Quad(10, 6, s, 1)
  {
    var ds := Decimals([10, 6, s, 1]);
    assert NatToString(10) == "10" && NatToString(6) == "6" && NatToString(1) == "1";
    assert ds == ["10", "6", NatToString(s), "1"];
    JoinFour("10", "6", NatToString(s), "1", '.');
  }

  lemma JoinFour(a: string, b: string, c: string, d: string, sep: char)
    ensures Join([a, b, c, d], sep) == a + [sep] + b + [sep] + c + [sep] + d
  {
    var s := [a, b, c, d];
    assert s[1..] == [b, c, d] && s[1..][1..] == [c, d] && s[1..][1..][1..] == [d];
    assert Join([c, d], sep) == c + [sep] + d;
    assert Join([b, c, d], sep) == b + [sep] + (c + [sep] + d);
  }

  /**
   * For s below 256 the controllers' ip_to_val reads host s's address as
   * `10.6.s.1`; the level-0 fabric layout of topology.py is not followed.
   */
  lemma HostIpTextValue(s: nat)
    requires s < 256
    ensures IpToVal(HostIpText(s)) == Some(10 * 16777216 + 6 * 65536 + s * 256 + 1)
  {
    HostIpTextIsQuad(s);
    IpToValDottedQuad(10, 6, s, 1);
  }

  // ---------------------------------------------------------- host edges

  /** The level-0 switch host h is attached to: `h / num_servers_per_switch`. */
  function SwitchOfHost(h: nat, nsps: nat): nat
  {
    if nsps == 0 then 0 else h / nsps
  }

  /** Host h's position `n` at its switch: `h % num_servers_per_switch`. */
  function SlotOfHost(h: nat, nsps: nat): nat
  {
    if nsps == 0 then 0 else h % nsps
  }

  /** The first `count` host edges, host h to switch `h / nsps`, in creation order. */
  predicate LinksUpTo(links: seq<Link>, count: int, nsps: nat)
  {
    |links| == count && forall h :: 0 <= h < count ==> links[h] == HostLink(SwitchOfHost(h, nsps), h)
  }

  /** A key `(switch, host)` or `(host, switch)` of one of the first `count` host edges. */
  predicate IsHostKey(e: (Node, Node), count: int, nsps: nat)
  {
    || (e.0.Switch? && e.1.Host? && e.1.n < count && e.0.n == SwitchOfHost(e.1.n, nsps))
    || (e.0.Host? && e.1.Switch? && e.0.n < count && e.1.n == SwitchOfHost(e.0.n, nsps))
  }

  /**
   * `outport_mappings` after the first `count` host edges: the switch side
   * of host n at its switch is `k - 1 - n`, the host side is 1.
   */
  ghost predicate PortsUpTo(ports: map<(Node, Node), int>, count: int, nsps: nat, k: int)
  {
    && (forall e :: e in ports <==> IsHostKey(e, count, nsps))
    && (forall e :: e in ports && e.0.Host? ==> ports[e] == 1)
    && (forall e :: e in ports && e.0.Switch? ==> ports[e] == k - 1 - SlotOfHost(e.1.n, nsps))
  }

  /** `open_ports`: switches below `done` reset to p, switch `done` at `k - n`, the rest untouched. */
  predicate OpenUpTo(open: seq<int>, total: nat, done: nat, n: nat, k: int, p: int)
  {
    |open| == total
    && forall s :: 0 <= s < total ==> open[s] == (if s < done then p else if s == done then k - n else k)
  }

  lemma HostPlace(m: nat, nsps: nat, n: nat)
    requires n < nsps
    ensures SwitchOfHost(m * nsps + n, nsps) == m && SlotOfHost(m * nsps + n, nsps) == n
  {
    DivModOf(m, nsps, n);
  }

  /**
   * Level-0 switch m attaches its hosts `m * nsps + n`: the counter is
   * decremented first and the new value is the switch-side port.
   */
  method AttachHosts(m: nat, nsps: nat, k: int, p: int, total: nat, links: seq<Link>, ports: map<(Node, Node), int>,
                     open: seq<int>)
    returns (links': seq<Link>, ports': map<(Node, Node), int>, open': seq<int>)
    requires m < total
    requires LinksUpTo(links, m * nsps, nsps) && PortsUpTo(ports, m * nsps, nsps, k)
    requires OpenUpTo(open, total, m, 0, k, p)
    ensures LinksUpTo(links', (m + 1) * nsps, nsps) && PortsUpTo(ports', (m + 1) * nsps, nsps, k)
    ensures OpenUpTo(open', total, m + 1, 0, k, p)
  {
    links', ports', open' := links, ports, open;
    var n := 0;
    while n < nsps
      invariant 0 <= n <= nsps
      invariant LinksUpTo(links', m * nsps + n, nsps) && PortsUpTo(ports', m * nsps + n, nsps, k)
      invariant OpenUpTo(open', total, m, n, k, p)
    {
      var h := m * nsps + n;
      HostPlace(m, nsps, n);
      open' := open'[m := open'[m] - 1];
      links' := links' + [HostLink(m, h)];
      ports' := ports'[(Switch(m), Host(h)) := open'[m]][(Host(h), Switch(m)) := 1];
      forall e | IsHostKey(e, h + 1, nsps) && !IsHostKey(e, h, nsps)
        ensures e == (Switch(m), Host(h)) || e == (Host(h), Switch(m))
      {
      }
      n := n + 1;
    }
    assert m * nsps + nsps == (m + 1) * nsps;
    open' := open'[m := p];
  }

  /**
   * One level below the top: `for m in range(num_groups): for j in
   * range(num_switches_per_group)`, adding switch
   * `i * num_groups * num_switches_per_group + m * num_switches_per_group + j`.
   */
  method NumberLevel(i: nat, groups: nat, size: nat, switches: set<nat>) returns (switches': set<nat>)
    requires forall s: nat :: s in switches <==> s < i * groups * size
    ensures forall s: nat :: s in switches' <==> s < (i + 1) * groups * size
  {
    var first := i * groups * size;
    switches' := switches;
    var m := 0;
    while m < groups
      invariant 0 <= m <= groups
      invariant forall s: nat :: s in switches' <==> s < first + m * size
    {
      var base := first + m * size;
      var j := 0;
      while j < size
        invariant 0 <= j <= size
        invariant forall s: nat :: s in switches' <==> s < base + j
      {
        switches' := switches' + {i * groups * size + m * size + j};
        j := j + 1;
      }
      assert (m + 1) * size == m * size + size;
      m := m + 1;
    }
    assert (i + 1) * groups * size == first + groups * size;
  }

  /** The top level: `for j in range(n_switches_per_layer / 2)`, adding switch `i * num_groups * num_switches_per_group + j`. */
  method NumberTop(first: nat, count: nat, switches: set<nat>) returns (switches': set<nat>)
    requires forall s: nat :: s in switches <==> s < first
    ensures forall s: nat :: s in switches' <==> s < first + count
  {
    switches' := switches;
    var j := 0;
    while j < count
      invariant 0 <= j <= count
      invariant forall s: nat :: s in switches' <==> s < first + j
    {
      switches' := switches' + {first + j};
      j := j + 1;
    }
  }

  /**
   * The node loop of generate_topology: level by level (`for i in
   * range(L + 1)`), every switch number once, top level last.
   */
  method NumberSwitches(p: nat, depth: nat) returns (switches: set<nat>)
    ensures forall s: nat :: s in switches <==> s < TotalSwitches(p, depth)
  {
    var nspl := LayerSize(p, depth);
    switches := {};
    var i := 0;
    while i < depth
      invariant 0 <= i <= depth
      invariant forall s: nat :: s in switches <==> s < i * nspl
    {
      var groups, size := Groups(p, depth, i), GroupSize(p, i);
      GroupsFillLayer(p, depth, i);
      assert i * groups * size == i * nspl && (i + 1) * groups * size == (i + 1) * nspl;
      switches := NumberLevel(i, groups, size, switches);
      i := i + 1;
    }
    var groups, size := Groups(p, depth, depth), GroupSize(p, depth);
    GroupsFillLayer(p, depth, depth);
    assert depth * groups * size == depth * nspl;
    switches := NumberTop(depth * groups * size, nspl / 2, switches);
  }

  /** On level 0 every group holds one switch, so switch m of the layer is group m, index 0. */
  lemma Level0Numbering(p: nat, depth: nat, m: nat)
    ensures GroupSize(p, 0) == 1 && SwitchNumber(p, depth, 0, m, 0) == m
  {
  }

  /**
   * The level-0 iterations of the builder: each of the `nspl` level-0
   * switches attaches its hosts and has its counter reset to p.
   */
  method WireLevel0(nspl: nat, nsps: nat, k: int, p: int, total: nat)
    returns (links: seq<Link>, ports: map<(Node, Node), int>, open: seq<int>)
    requires nspl <= total
    ensures LinksUpTo(links, nspl * nsps, nsps) && PortsUpTo(ports, nspl * nsps, nsps, k)
    ensures OpenUpTo(open, total, nspl, 0, k, p)
  {
    links, ports, open := [], map[], seq(total, _ => k);
    var m := 0;
    while m < nspl
      invariant 0 <= m <= nspl
      invariant LinksUpTo(links, m * nsps, nsps) && PortsUpTo(ports, m * nsps, nsps, k)
      invariant OpenUpTo(open, total, m, 0, k, p)
    {
      links, ports, open := AttachHosts(m, nsps, k, p, total, links, ports, open);
      m := m + 1;
    }
  }

  /** What generate_topology of topology_f10.py has built when it falls off its end. */
  datatype Partial = Partial(hostIp: map<nat, string>, switches: set<nat>, links: seq<Link>, table: PortTable)

  /** `num_servers_per_switch = n_servers / n_switches_per_layer`. */
  function HostsPerSwitch(nServers: nat, nspl: nat): nat
    requires nspl > 0
  {
    nServers / nspl
  }

  /**
   * The state after the builder's loops: every host named with its
   * `10.6.s.1` text, switches `0 .. total_switches - 1`, and the `wired`
   * level-0 switches (all of them, none when L = 0) attached to their hosts
   * with their counters reset to p.
   */
  ghost predicate Built(b: Partial, nServers: nat, k: nat, depth: nat, nspl: nat)
    requires nspl > 0
  {
    var nsps := HostsPerSwitch(nServers, nspl);
    var wired := if depth == 0 then 0 else nspl;
    && nspl == LayerSize(k / 2, depth)
    && (forall s: nat :: s in b.hostIp <==> s < nServers)
    && (forall s :: s in b.hostIp ==> b.hostIp[s] == HostIpText(s))
    && (forall s: nat :: s in b.switches <==> s < TotalSwitches(k / 2, depth))
    && LinksUpTo(b.links, wired * nsps, nsps)
    && PortsUpTo(b.table.ports, wired * nsps, nsps, k)
    && OpenUpTo(b.table.open, TotalSwitches(k / 2, depth), wired, 0, k, k / 2)
  }

  /**
   * `generate_topology(n_servers, k, L)` of topology_f10.py; None when
   * `n_switches_per_layer` is 0 (`k < 2` with `L >= 1`) and the division by
   * it raises ZeroDivisionError. Switch nodes and level-0 wiring touch
   * disjoint state, so they are built one after the other here.
   */
  method GeneratePartial(nServers: nat, k: nat, depth: nat) returns (r: Option<Partial>)
    ensures r.None? <==> LayerSize(k / 2, depth) == 0
    ensures r.Some? ==> Built(r.value, nServers, k, depth, LayerSize(k / 2, depth))
  {
    var p := k / 2;
    var nspl := LayerSize(p, depth);
    if nspl == 0 {
      return None;
    }
    var nsps := HostsPerSwitch(nServers, nspl);
    var total := TotalSwitches(p, depth);
    var hostIp := map s: nat | s < nServers :: HostIpText(s);
    var switches := NumberSwitches(p, depth);
    var wired := if depth == 0 then 0 else nspl;
    assert wired <= total;
    var links, ports, open := WireLevel0(wired, nsps, k, p, total);
    r := Some(Partial(hostIp, switches, links, PortTable(open, ports)));
  }

  /** Attached host h's switch and slot: `h == switch * nsps + slot` with the slot below nsps. */
  lemma HostSplit(h: nat, nsps: nat)
    requires nsps > 0
    ensures h == SwitchOfHost(h, nsps) * nsps + SlotOfHost(h, nsps) && SlotOfHost(h, nsps) < nsps
  {
  }

  /** The first `nspl * nsps` hosts hang from switches below nspl, nsps each. */
  lemma AttachedHostSwitch(h: nat, nspl: nat, nsps: nat)
    requires h < nspl * nsps
    ensures nsps > 0
    ensures var m := SwitchOfHost(h, nsps);
            m < nspl && m * nsps <= h < m * nsps + nsps
  {
    HostSplit(h, nsps);
    var m := SwitchOfHost(h, nsps);
    if m >= nspl {
      MulLe(nspl, m, nsps);
      assert false;
    }
  }

  /** A host edge of switch m below nspl is the one the builder made for host `l.host`. */
  lemma HostEdgeAttached(m: nat, h: nat, nspl: nat, nsps: nat)
    requires m < nspl && m * nsps <= h < m * nsps + nsps
    ensures h < nspl * nsps && SwitchOfHost(h, nsps) == m
  {
    HostPlace(m, nsps, h - m * nsps);
    MulLe(m + 1, nspl, nsps);
  }

  /** At depth 2 the layer and the servers per switch are those of topology.py. */
  lemma DepthTwoSizes(nServers: nat, k: nat)
    requires k >= 2
    ensures LayerSize(k / 2, 2) == PerLayer(k) == Layer(k / 2) > 0
    ensures HostsPerSwitch(nServers, PerLayer(k)) == ServersPerSwitch(nServers, k)
    ensures PerLayer(k) * ServersPerSwitch(nServers, k) <= nServers
  {
    var p := k / 2;
    assert Power(p, 1) == p;
    assert Power(p, 2) == p * Power(p, 1);
    MulLe(1, p, p);
  }

  /**
   * At depth 2 the partial builder wires exactly the host edges of
   * topology.py's fabric, and every host it wires is one of the
   * `n_servers` named hosts.
   */
  lemma BuiltLinksAreHostEdges(b: Partial, nServers: nat, k: nat)
    requires k >= 2 && Built(b, nServers, k, 2, PerLayer(k))
    ensures forall l :: l in b.links <==> IsHostEdge(k / 2, ServersPerSwitch(nServers, k), l)
    ensures forall l :: l in b.links ==> l.host in b.hostIp
  {
    DepthTwoSizes(nServers, k);
    var p, nspl, nsps := k / 2, PerLayer(k), ServersPerSwitch(nServers, k);
    assert LinksUpTo(b.links, nspl * nsps, nsps);
    forall l | l in b.links
      ensures IsHostEdge(p, nsps, l) && l.host in b.hostIp
    {
      var h :| 0 <= h < |b.links| && b.links[h] == l;
      AttachedHostSwitch(h, nspl, nsps);
    }
    forall l | IsHostEdge(p, nsps, l)
      ensures l in b.links
    {
      HostEdgeAttached(l.sw, l.host, nspl, nsps);
      assert b.links[l.host] == l;
    }
  }

  /**
   * No two hosts of one switch share a port: host n of a level-0 switch is
   * on port `k - 1 - n`, which lies between `k - nsps` and `k - 1`.
   */
  lemma BuiltPortsDistinct(b: Partial, nServers: nat, k: nat, depth: nat, nspl: nat)
    requires nspl > 0 && Built(b, nServers, k, depth, nspl)
    ensures Distinct(b.table.ports)
    ensures forall e :: e in b.table.ports && e.0.Switch? ==>
              k - HostsPerSwitch(nServers, nspl) <= b.table.ports[e] <= k - 1
  {
    var nsps := HostsPerSwitch(nServers, nspl);
    var ports := b.table.ports;
    forall e, f | e in ports && f in ports && e.0.Switch? && e.0 == f.0 && e != f
      ensures ports[e] != ports[f]
    {
      HostSplit(e.1.n, nsps);
      HostSplit(f.1.n, nsps);
    }
    forall e | e in ports && e.0.Switch?
      ensures k - nsps <= ports[e] <= k - 1
    {
      HostSplit(e.1.n, nsps);
    }
  }
}
