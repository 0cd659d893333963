/**
 * The builders: `generate_topology` of topology.py (AB-tree, with port map
 * and address maps) and of fat_tree_topology.py (plain fat-tree, graph only).
 */
module Topology {
  import opened Bits
  import opened Address
  import opened Fabric
  import opened Ports

  /** The networkx graph: node addresses (the `ip` attribute) and the edges in creation order. */
  datatype Graph = Graph(hostIp: map<nat, nat>, switchIp: map<nat, nat>, links: seq<Link>)

  /** The `topo` dictionary of topology.py. */
  datatype Topology = Topology(
    graph: Graph,
    nPorts: nat,
    nHosts: nat,
    nSwitches: nat,
    ports: map<(Node, Node), int>)

  /** The `topo` dictionary of fat_tree_topology.py: no port map. */
  datatype FatTopology = FatTopology(graph: Graph, nPorts: nat, nHosts: nat, nSwitches: nat)

  lemma LayerIsMultiple(p: nat, m: nat)
    requires p >= 1 && m < Layer(p)
    ensures m / p * p + p <= Layer(p)
  {
    var q := m / p;
    assert Layer(p) == (2 * p) * p;
    if q >= 2 * p {
      MulLe(2 * p, q, p);
      assert false;
    }
    MulLe(q + 1, 2 * p, p);
  }

  /** Every edge endpoint is a switch number below `total_switches`. */
  lemma LinksWithinSwitches(v: Variant, p: nat, nsps: nat)
    requires p >= 1
    ensures AllWithin(Links(v, p, nsps), SwitchCount(2 * p))
  {
    var links := Links(v, p, nsps);
    assert SwitchCount(2 * p) == 2 * Layer(p) + p * p;
    forall i | 0 <= i < |links|
      ensures Within(links[i], SwitchCount(2 * p))
    {
      var l := links[i];
      LinksCharacterised(v, p, nsps, l);
      if IsL0Edge(v, p, l) {
        if v == ABTree {
          LayerIsMultiple(p, l.from);
        } else {
          PairBelow(l.from);
          MulLe(1, p, p);
        }
      }
    }
  }

  /** The even number `2 * (m / 2)` is at most m. */
  lemma PairBelow(m: nat)
    ensures Quot(m, 2) * 2 <= m
  {
    var q := Quot(m, 2);
    assert m == q * 2 + m % 2;
  }

  /** `open_ports = [k] * total_switches` and an empty `outport_mappings`. */
  function FreshTable(k: nat): PortTable
  {
    PortTable(seq(SwitchCount(k), _ => k), map[])
  }

  /** The port table after the edge loop keeps the port invariant and covers every edge. */
  lemma AssignedTable(nServers: nat, k: nat)
    requires k >= 2
    ensures AllWithin(Links(ABTree, k / 2, ServersPerSwitch(nServers, k)), |FreshTable(k).open|)
    ensures var links := Links(ABTree, k / 2, ServersPerSwitch(nServers, k));
            var r := Assign(FreshTable(k), links);
            && PortsOk(r, k)
            && forall i :: 0 <= i < |links| ==> Keys(links[i]).0 in r.ports && Keys(links[i]).1 in r.ports
  {
    var p := k / 2;
    var links := Links(ABTree, p, ServersPerSwitch(nServers, k));
    LinksWithinSwitches(ABTree, p, ServersPerSwitch(nServers, k));
    assert SwitchCount(k) == SwitchCount(2 * p);
    AssignKeepsPortsOk(FreshTable(k), links, k);
    AssignRecordsEveryEdge(FreshTable(k), links);
  }

  /** `generate_topology(n_servers, k, L=2)` of topology.py. */
  function GenerateTopology(nServers: nat, k: nat): (t: Topology)
    requires k >= 2
    ensures forall s: nat :: s in t.graph.switchIp <==> s < t.nSwitches
    ensures forall i :: 0 <= i < |t.graph.links| ==>
              Keys(t.graph.links[i]).0 in t.ports && Keys(t.graph.links[i]).1 in t.ports
    ensures Distinct(t.ports)
    ensures forall e :: e in t.ports && e.0.Switch? ==> t.ports[e] <= k
    ensures forall e :: e in t.ports && e.0.Host? ==> t.ports[e] == 1
  {
    AssignedTable(nServers, k);
    var links := Links(ABTree, k / 2, ServersPerSwitch(nServers, k));
    Topology(Graph(HostIps(nServers, k), SwitchIps(k), links), k, nServers, SwitchCount(k),
             Assign(FreshTable(k), links).ports)
  }

  /** `generate_topology(n_servers, k, L=2)` of fat_tree_topology.py, level-0 uplinks as written. */
  function FatTreeTopology(nServers: nat, k: nat): (t: FatTopology)
    requires k >= 2
    ensures forall s: nat :: s in t.graph.switchIp <==> s < t.nSwitches
    ensures forall i :: 0 <= i < |t.graph.links| ==> Within(t.graph.links[i], t.nSwitches)
  {
    LinksWithinSwitches(FatTree, k / 2, ServersPerSwitch(nServers, k));
    assert SwitchCount(k) == SwitchCount(2 * (k / 2));
    FatTopology(Graph(HostIps(nServers, k), SwitchIps(k), Links(FatTree, k / 2, ServersPerSwitch(nServers, k))),
                k, nServers, SwitchCount(k))
  }

  // -------------------------------------------------------------- addresses

  /**
   * Every switch's fields fit their widths: the level-0 and level-1
   * locations in 14 bits and the top-switch indices in 8 bits.
   */
  predicate AddressesFit(k: nat)
  {
    PerLayer(k) <= 16384 && (k / 2) * (k / 2) <= 256
  }

  /** Fitting addresses bound the group size: `p * p <= 256` means `p <= 16`. */
  lemma HalfFits(k: nat)
    requires AddressesFit(k)
    ensures k / 2 <= 16
  {
    var p := k / 2;
    if p > 16 {
      MulLe(17, p, p);
    }
  }

  /** The groups of p switches within one layer number below 2p. */
  lemma GroupBelow(p: nat, m: nat)
    requires p >= 1 && m < Layer(p)
    ensures m / p < 2 * p
  {
    LayerIsMultiple(p, m);
  }

  /** A switch of level i, group m and index j is `i * nspl + m * p**i + j` (top: `2 * nspl + j`). */
  lemma GroupMemberBelow(p: nat, m: nat, j: nat)
    requires m < 2 * p && j < p
    ensures m * p + j < Layer(p)
  {
    MulLe(m + 1, 2 * p, p);
  }

  /** Top switch j: level 2, location 0, index j. */
  lemma TopSwitchAddress(k: nat, j: nat)
    requires k >= 2 && AddressesFit(k) && j < (k / 2) * (k / 2)
    ensures 2 * PerLayer(k) + j in SwitchIps(k)
    ensures var a := SwitchIps(k)[2 * PerLayer(k) + j];
            Level(a) == Top && Location(a) == 0 && Index(a) == j
  {
    TopAddrIsPack(j);
    DecodePack(0, Top, j);
  }

  /** Switch j of level-1 group m, number `s = nspl + m * p + j`: level 1, location `m * p`, index j. */
  lemma Level1SwitchAddress(k: nat, m: nat, j: nat, s: nat)
    requires k >= 2 && AddressesFit(k) && m < 2 * (k / 2) && j < k / 2
    requires s == PerLayer(k) + m * (k / 2) + j
    ensures s in SwitchIps(k)
    ensures Level(SwitchIps(k)[s]) == 1 && Location(SwitchIps(k)[s]) == m * (k / 2) && Index(SwitchIps(k)[s]) == j
  {
    var p := k / 2;
    var base: nat := m * p;
    GroupMemberBelow(p, m, j);
    DivModOf(m, p, 0);
    HalfFits(k);
    Level1Entry(k, base, j, s);
    DecodePack(base, 1, j);
  }

  /** Switch `nspl + base + j` of a group starting at `base` is packed with level 1, location base, index j. */
  lemma Level1Entry(k: nat, base: nat, j: nat, s: nat)
    requires k >= 2 && j < k / 2 && base % (k / 2) == 0 && base + j < PerLayer(k)
    requires s == PerLayer(k) + base + j
    ensures s in SwitchIps(k) && SwitchIps(k)[s] == Pack(base, 1, j)
  {
    var p := k / 2;
    var r: nat := s - PerLayer(k);
    assert r == base + j;
    var q := base / p;
    assert base == q * p;
    DivModOf(q, p, j);
    assert GroupBase(r, p) == base;
  }

  /** Level-0 switch m: level 0, location m, index 0. */
  lemma Level0SwitchAddress(k: nat, m: nat)
    requires k >= 2 && AddressesFit(k) && m < PerLayer(k)
    ensures m in SwitchIps(k)
    ensures Level(SwitchIps(k)[m]) == 0 && Location(SwitchIps(k)[m]) == m && Index(SwitchIps(k)[m]) == 0
  {
    DecodePack(m, 0, 0);
  }

  /** The location field is wide enough for every level-0 switch: `2 p^2 <= 2^(2 ceil(log2 p) + 1)`. */
  lemma LayerFitsLocationBits(k: nat)
    requires k >= 2
    ensures PerLayer(k) <= Pow2(LocationBits(k))
  {
    var p, b := k / 2, CeilLog2(k / 2);
    MulLe(p, Pow2(b), p);
    MulLe(p, Pow2(b), Pow2(b));
    Pow2Add(b, b);
    assert Pow2(2 * b + 1) == 2 * Pow2(2 * b);
  }

  /** Host `h = m * nsps + c` gets the host address of location m, count c. */
  lemma HostIpEntry(nServers: nat, k: nat, m: nat, c: nat, h: nat)
    requires k >= 2 && m < PerLayer(k) && c < ServersPerSwitch(nServers, k)
    requires h == m * ServersPerSwitch(nServers, k) + c
    ensures h in HostIps(nServers, k) && HostIps(nServers, k)[h] == HostAddr(m, c)
  {
    LayerFitsLocationBits(k);
    HostIpsAt(nServers, k, ServersPerSwitch(nServers, k), m, c, h);
  }

  /**
   * Host c of level-0 switch m is `h = m * nsps + c`: it is wired to switch m
   * and its address has the location of its switch. Its level is 0 and its
   * index `c + 1` only for c < 255; from there on `c + 1` carries into the
   * level field.
   */
  lemma HostAddress(v: Variant, nServers: nat, k: nat, m: nat, c: nat, h: nat)
    requires k >= 2 && AddressesFit(k) && m < PerLayer(k)
    requires c < ServersPerSwitch(nServers, k) && c + 1 < 1024
    requires h == m * ServersPerSwitch(nServers, k) + c
    ensures HostLink(m, h) in Links(v, k / 2, ServersPerSwitch(nServers, k))
    ensures h in HostIps(nServers, k)
    ensures var a := HostIps(nServers, k)[h];
            Location(a) == m == Location(SwitchIps(k)[m])
            && Level(a) == (c + 1) / 256 && Index(a) == (c + 1) % 256
    ensures var a := HostIps(nServers, k)[h];
            Level(a) == 0 && Index(a) == c + 1 <==> c < 255
  {
    HostIpEntry(nServers, k, m, c, h);
    HostAddrFields(m, c);
    Level0SwitchAddress(k, m);
    HostWired(v, k / 2, ServersPerSwitch(nServers, k), m, c, h);
  }

  /** The builder wires host `h = m * nsps + c` to level-0 switch m. */
  lemma HostWired(v: Variant, p: nat, nsps: nat, m: nat, c: nat, h: nat)
    requires p >= 1 && m < Layer(p) && c < nsps && h == m * nsps + c
    ensures HostLink(m, h) in Links(v, p, nsps)
  {
    LinksCharacterised(v, p, nsps, HostLink(m, h));
  }

  // ----------------------------------------------------------------- wiring

  /**
   * AB-tree: level-0 switch m is wired to exactly the p switches of level-1
   * group m / p.
   */
  lemma L0UplinksIntoGroup(p: nat, nsps: nat, m: nat, t: nat)
    requires p >= 1 && m < Layer(p)
    ensures SwitchLink(m, t) in Links(ABTree, p, nsps)
            <==> Layer(p) + m / p * p <= t < Layer(p) + m / p * p + p
  {
    LinksCharacterised(ABTree, p, nsps, SwitchLink(m, t));
  }

  /** AB-tree: the level-1 switches above level-0 switch m carry location `(m / p) * p`. */
  lemma L0UplinkLocation(nServers: nat, k: nat, m: nat, t: nat)
    requires k >= 2 && AddressesFit(k) && m < PerLayer(k)
    requires SwitchLink(m, t) in Links(ABTree, k / 2, ServersPerSwitch(nServers, k))
    ensures t in SwitchIps(k)
    ensures Level(SwitchIps(k)[t]) == 1 && Location(SwitchIps(k)[t]) == m / (k / 2) * (k / 2)
  {
    L0UplinksIntoGroup(k / 2, ServersPerSwitch(nServers, k), m, t);
    GroupSwitchAddress(k, m, t);
  }

  lemma GroupSwitchAddress(k: nat, m: nat, t: nat)
    requires k >= 2 && AddressesFit(k) && m < PerLayer(k)
    requires PerLayer(k) + m / (k / 2) * (k / 2) <= t < PerLayer(k) + m / (k / 2) * (k / 2) + k / 2
    ensures t in SwitchIps(k)
    ensures Level(SwitchIps(k)[t]) == 1 && Location(SwitchIps(k)[t]) == m / (k / 2) * (k / 2)
  {
    var p := k / 2;
    GroupBelow(p, m);
    var g := m / p;
    var j: nat := t - PerLayer(k) - g * p;
    Level1SwitchAddress(k, g, j, t);
  }

  /**
   * AB-tree: top switch t is wired to switch j of level-1 group m exactly
   * when j is `t / p` (A group, m even) or `t % p` (B group, m odd), so each
   * group gives every top switch one link.
   */
  lemma ABWiring(p: nat, nsps: nat, m: nat, j: nat, t: nat)
    requires p >= 1 && m < 2 * p && j < p && t < p * p
    ensures SwitchLink(Layer(p) + (m * p + j), 2 * Layer(p) + t) in Links(ABTree, p, nsps)
            <==> j == (if m % 2 == 0 then t / p else t % p)
    ensures (if m % 2 == 0 then t / p else t % p) < p
  {
    GroupMemberBelow(p, m, j);
    DivModOf(m, p, j);
    QuotientBelow(t, p);
    LinksCharacterised(ABTree, p, nsps, SwitchLink(Layer(p) + (m * p + j), 2 * Layer(p) + t));
  }

  /**
   * The point of the A/B split: switch j of an A group and switch j' of a B
   * group share exactly one top switch, the one in row j and column j' of
   * the p-by-p top layer (number `j * p + j'`, see RowAndColumn).
   */
  lemma ABCommonTop(p: nat, nsps: nat, ma: nat, mb: nat, j: nat, j': nat, t: nat)
    requires p >= 1 && ma < 2 * p && mb < 2 * p && ma % 2 == 0 && mb % 2 == 1
    requires j < p && j' < p && t < p * p
    ensures (SwitchLink(Layer(p) + (ma * p + j), 2 * Layer(p) + t) in Links(ABTree, p, nsps)
             && SwitchLink(Layer(p) + (mb * p + j'), 2 * Layer(p) + t) in Links(ABTree, p, nsps))
            <==> t / p == j && t % p == j'
  {
    ATopWiring(p, nsps, ma, j, t);
    BTopWiring(p, nsps, mb, j', t);
  }

  /** Row j and column j' of the top layer is top switch `j * p + j'`, and no other. */
  lemma RowAndColumn(p: nat, j: nat, j': nat, t: nat)
    requires p >= 1 && j' < p
    ensures t / p == j && t % p == j' <==> t == j * p + j'
  {
    DivModOf(j, p, j');
    assert t == t / p * p + t % p;
  }

  /** An A group wires switch j to row j of the top layer. */
  lemma ATopWiring(p: nat, nsps: nat, m: nat, j: nat, t: nat)
    requires p >= 1 && m < 2 * p && j < p && t < p * p && m % 2 == 0
    ensures SwitchLink(Layer(p) + (m * p + j), 2 * Layer(p) + t) in Links(ABTree, p, nsps) <==> t / p == j
  {
    ABWiring(p, nsps, m, j, t);
  }

  /** A B group wires switch j to column j of the top layer. */
  lemma BTopWiring(p: nat, nsps: nat, m: nat, j: nat, t: nat)
    requires p >= 1 && m < 2 * p && j < p && t < p * p && m % 2 == 1
    ensures SwitchLink(Layer(p) + (m * p + j), 2 * Layer(p) + t) in Links(ABTree, p, nsps) <==> t % p == j
  {
    ABWiring(p, nsps, m, j, t);
  }

  /** Plain fat-tree: switch j of every level-1 group reaches top switches `j * p .. j * p + p - 1`. */
  lemma FatTreeWiring(p: nat, nsps: nat, m: nat, j: nat, t: nat)
    requires p >= 1 && m < 2 * p && j < p && t < p * p
    ensures SwitchLink(Layer(p) + (m * p + j), 2 * Layer(p) + t) in Links(FatTree, p, nsps)
            <==> t / p == j
  {
    GroupMemberBelow(p, m, j);
    DivModOf(m, p, j);
    LinksCharacterised(FatTree, p, nsps, SwitchLink(Layer(p) + (m * p + j), 2 * Layer(p) + t));
  }

  // ----------------------------------------- fat_tree_topology.py uplinks

  /**
   * fat_tree_topology.py as written: level-0 switch m is wired to the p
   * switches from `nspl + 2 * (m / 2)`, whatever p is.
   */
  lemma FatTreeL0Uplinks(p: nat, nsps: nat, m: nat, t: nat)
    requires p >= 1 && m < Layer(p)
    ensures SwitchLink(m, t) in Links(FatTree, p, nsps)
            <==> Layer(p) + 2 * (m / 2) <= t < Layer(p) + 2 * (m / 2) + p
  {
    LinksCharacterised(FatTree, p, nsps, SwitchLink(m, t));
  }

  /** With p = 2 the written uplink is the intended `(m / p) * p + nspl + n`. */
  lemma FatTreeUplinkAsWrittenAgreesWhenPIsTwo(nspl: nat, m: nat, n: nat)
    ensures L0Uplink(FatTree, 2, nspl, m, n) == L0Uplink(ABTree, 2, nspl, m, n)
  {
  }

  /**
   * With k = 8 (p = 4, nspl = 32) the fat-tree wires level-0 switch 2 to
   * switch 36 of level-1 group 1, while switch 2 lies under group 0; the
   * AB-tree rule wires it to 32 .. 35 only.
   */
  lemma FatTreeUplinkAsWrittenLeavesGroup(nsps: nat)
    ensures L0Uplink(FatTree, 4, Layer(4), 2, 2) == 36
    ensures SwitchLink(2, 36) in Links(FatTree, 4, nsps)
    ensures (36 - Layer(4)) / 4 == 1 && 2 / 4 == 0
    ensures SwitchLink(2, 36) !in Links(ABTree, 4, nsps) && SwitchLink(2, 34) in Links(ABTree, 4, nsps)
  {
    FatTreeL0Uplinks(4, nsps, 2, 36);
    L0UplinksIntoGroup(4, nsps, 2, 36);
    L0UplinksIntoGroup(4, nsps, 2, 34);
  }

  /** With k = 6 (p = 3, nspl = 18) level-0 switch 17 is even wired to top switch 36. */
  lemma FatTreeUplinkReachesTop(nsps: nat)
    ensures SwitchLink(17, 36) in Links(FatTree, 3, nsps)
    ensures LevelOf(6, 17) == 0 && LevelOf(6, 36) == Top
  {
    FatTreeL0Uplinks(3, nsps, 17, 36);
  }
}
