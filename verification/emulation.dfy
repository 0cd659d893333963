/**
 * The Mininet side of build_topology.py: the MAC formatter `mac_from_value`,
 * the MACs given to switches and hosts, the ARP entries every host installs,
 * and the translation between graph names (`s0`, `s1`, ...) and Mininet
 * names (`s1`, `s2`, ...) that `F10Top.build` uses to look up link ports.
 */
module Emulation {
  import opened Wrappers
  import opened Bits
  import opened Text
  import opened Fabric
  import opened Ports
  import opened Topology

  // ------------------------------------------------------------------ MACs

  predicate AllHex(s: string)
  {
    forall i :: 0 <= i < |s| ==> IsHexDigit(s[i])
  }

  /** One colon-separated MAC group: exactly two hex digits. */
  predicate IsHexPair(g: string)
  {
    |g| == 2 && AllHex(g)
  }

  /** Digits `'%0.12x' % v` prints: zero padded to twelve, more when v needs them. */
  function MacDigits(v: nat): (w: nat)
    ensures w >= 12 && v < Pow16(w)
    ensures w == 12 <==> v < Pow16(12)
    ensures w > 12 ==> Pow16(w - 1) <= v
  {
    var n := HexDigitCount(v);
    HexDigitCountFits(v, 12);
    if n <= 12 then 12
    else
      HexDigitCountFits(v, n - 1);
      n
  }

  /** The two-character slices of an even-length string, front to back. */
  function Pairs(s: string): (r: seq<string>)
    requires |s| % 2 == 0
    ensures |r| == |s| / 2
  {
    if |s| == 0 then [] else [s[..2]] + Pairs(s[2..])
  }

  /** `''.join(pieces)`. */
  function Concat(ps: seq<string>): (r: string)
    ensures (forall i :: 0 <= i < |ps| ==> AllHex(ps[i])) ==> AllHex(r)
  {
    if |ps| == 0 then ""
    else
      var r := ps[0] + Concat(ps[1..]);
      assert forall i :: 0 <= i < |ps| - 1 ==> ps[1..][i] == ps[i + 1];
      r
  }

  /**
   * `mac_from_value(v)`: the padded hex text, decoded to bytes and each byte
   * re-encoded as two hex digits joined by ':'. `.decode('hex')` raises on
   * an odd number of digits, which is the None case.
   */
  function MacFromValue(v: nat): (r: Option<string>)
    ensures r.Some? <==> MacDigits(v) % 2 == 0
  {
    var h := HexFixed(v, MacDigits(v));
    if |h| % 2 != 0 then None else Some(Join(Pairs(h), ':'))
  }

  /** Reads a MAC back: every ':'-separated group two hex digits, value base 16. */
  function ParseMac(s: string): (r: Option<nat>)
    ensures r.Some? ==> forall i :: 0 <= i < |Split(s, ':')| ==> IsHexPair(Split(s, ':')[i])
  {
    var groups := Split(s, ':');
    if forall i :: 0 <= i < |groups| ==> IsHexPair(groups[i]) then Some(HexValue(Concat(groups)))
    else None
  }

  lemma {:induction false} ConcatPairs(s: string)
    requires |s| % 2 == 0
    ensures Concat(Pairs(s)) == s
  {
    if |s| > 0 {
      ConcatPairs(s[2..]);
      assert Pairs(s)[1..] == Pairs(s[2..]);
    }
  }

  lemma {:induction false} PairsOfHex(h: string)
    requires |h| % 2 == 0 && AllHex(h)
    ensures forall i :: 0 <= i < |Pairs(h)| ==> IsHexPair(Pairs(h)[i]) && ':' !in Pairs(h)[i]
  {
    if |h| > 0 {
      PairsOfHex(h[2..]);
      assert forall i :: 1 <= i < |Pairs(h)| ==> Pairs(h)[i] == Pairs(h[2..])[i - 1];
    }
  }

  /** Parsing `mac_from_value(v)` recovers v whenever the formatter succeeds. */
  lemma MacRoundTrip(v: nat)
    requires MacDigits(v) % 2 == 0
    ensures MacFromValue(v).Some? && ParseMac(MacFromValue(v).value) == Some(v)
  {
    var w := MacDigits(v);
    var h := HexFixed(v, w);
    var groups := Pairs(h);
    PairsOfHex(h);
    SplitJoin(groups, ':');
    ConcatPairs(h);
    HexFixedValue(v, w);
  }

  /** Different values get different MACs. */
  lemma MacInjective(a: nat, b: nat)
    requires MacFromValue(a).Some? && MacFromValue(a) == MacFromValue(b)
    ensures a == b
  {
    MacRoundTrip(a);
    MacRoundTrip(b);
  }

  /** `|Join(groups, ':')|` for groups of two characters. */
  lemma {:induction false} JoinPairsLength(groups: seq<string>)
    requires |groups| >= 1 && forall i :: 0 <= i < |groups| ==> |groups[i]| == 2
    ensures |Join(groups, ':')| == 3 * |groups| - 1
  {
    if |groups| > 1 {
      JoinPairsLength(groups[1..]);
    }
  }

  /** Below 2^48 the MAC is six two-digit hex groups: 17 characters. */
  lemma MacFormat(v: nat)
    requires v < Pow16(12)
    ensures MacFromValue(v).Some?
    ensures |MacFromValue(v).value| == 17
    ensures |Split(MacFromValue(v).value, ':')| == 6
    ensures forall i :: 0 <= i < 6 ==> IsHexPair(Split(MacFromValue(v).value, ':')[i])
  {
    var h := HexFixed(v, 12);
    var groups := Pairs(h);
    PairsOfHex(h);
    SplitJoin(groups, ':');
    JoinPairsLength(groups);
  }

  /**
   * 16^n for even n >= 12 (2^48 the first) needs n + 1 hex digits, and
   * `.decode('hex')` rejects an odd count.
   */
  lemma MacOutOfRange(n: nat)
    requires n >= 12 && n % 2 == 0
    ensures MacFromValue(Pow16(n)) == None
  {
    HexDigitCountOfPow16(n);
    var h := n / 2;
    DivModOf(h, 2, 1);
    OddWidthRejected(Pow16(n), n + 1);
  }

  /** `.decode('hex')` fails on an odd number of digits. */
  lemma OddWidthRejected(v: nat, w: nat)
    requires HexDigitCount(v) == w && w > 12 && w % 2 == 1
    ensures MacFromValue(v) == None
  {
  }


  // --------------------------------------------------------- switch MACs

  /** `"{:02x}".format(v)`: v in hex, zero padded to two digits, more only when v needs them. */
  function Hex02(v: nat): (r: string)
    ensures |r| >= 2 && AllHex(r)
    ensures HexValue(r) == v
    ensures |r| == 2 <==> v < 256
    ensures |r| > 2 ==> Pow16(|r| - 1) <= v
  {
    var n := HexDigitCount(v);
    var width := if n < 2 then 2 else n;
    HexDigitCountFits(v, width);
    HexDigitCountFits(v, 2);
    assert Pow16(2) == 256;
    HexFixedValue(v, width);
    HexDigitCountFits(v, if n > 2 then n - 1 else 1);
    HexFixed(v, width)
  }

  /** The MAC `F10Top.build` gives graph switch s, as written. */
  function SwitchMacAsWritten(s: nat): string
  {
    "00:00:00:00:00:" + Hex02(SwitchMacValue(s))
  }

  /** The value behind graph switch s's MAC: its Mininet number `s + 1`. */
  function SwitchMacValue(s: nat): nat
  {
    s + 1
  }

  /** The MAC of graph switch s: `mac_from_value(s + 1)`, the format the hosts get. */
  function SwitchMac(s: nat): Option<string>
  {
    MacFromValue(SwitchMacValue(s))
  }

  /** `HexFixed(0, 2n)` splits into n groups "00". */
  lemma {:induction false} ZeroPairs(n: nat)
    ensures Pairs(HexFixed(0, 2 * n)) == seq(n, _ => "00")
  {
    if n > 0 {
      ZeroPairs(n - 1);
      HexFixedPadded(0, 2 * (n - 1), 2);
      var z := HexFixed(0, 2 * (n - 1));
      assert HexFixed(0, 2) == "00";
      assert HexFixed(0, 2 * n) == z + "00";
      PairsAppend(z, "00");
      PairsOfPair("00");
      assert seq(n - 1, _ => "00") + ["00"] == seq(n, _ => "00");
    }
  }

  lemma PairsOfPair(g: string)
    requires |g| == 2
    ensures Pairs(g) == [g]
  {
    assert g[..2] == g;
    assert g[2..] == [];
  }

  lemma {:induction false} PairsAppend(a: string, b: string)
    requires |a| % 2 == 0 && |b| % 2 == 0
    ensures Pairs(a + b) == Pairs(a) + Pairs(b)
  {
    if |a| == 0 {
      assert a + b == b;
    } else {
      PairsAppend(a[2..], b);
      assert (a + b)[2..] == a[2..] + b;
      assert (a + b)[..2] == a[..2];
      calc {
        Pairs(a + b);
        [a[..2]] + Pairs(a[2..] + b);
        [a[..2]] + (Pairs(a[2..]) + Pairs(b));
        ([a[..2]] + Pairs(a[2..])) + Pairs(b);
      }
    }
  }

  lemma SmallValueDigits(v: nat)
    requires v < 256
    ensures Hex02(v) == HexFixed(v, 2)
    ensures MacDigits(v) == 12
  {
    assert Pow16(2) == 256;
    HexDigitCountBound(v, 2);
    Pow16Monotone(2, 12);
  }

  /** The twelve digits of a one-byte value: five zero groups, then the value. */
  lemma SmallValueGroups(v: nat)
    requires v < 256
    ensures Pairs(HexFixed(v, 12)) == seq(5, _ => "00") + [HexFixed(v, 2)]
  {
    assert Pow16(2) == 256;
    HexFixedPadded(v, 10, 2);
    ZeroPairs(5);
    PairsAppend(HexFixed(0, 10), HexFixed(v, 2));
    PairsOfPair(HexFixed(v, 2));
  }

  /** n groups "00", each followed by ':'. */
  function ZeroPrefix(n: nat): (r: string)
    ensures |r| == 3 * n
  {
    if n == 0 then "" else "00:" + ZeroPrefix(n - 1)
  }

  lemma {:induction false} JoinZeroGroups(n: nat, g: string)
    ensures Join(seq(n, _ => "00") + [g], ':') == ZeroPrefix(n) + g
  {
    if n > 0 {
      JoinZeroGroups(n - 1, g);
      var groups := seq(n, _ => "00") + [g];
      assert groups[0] == "00";
      assert groups[1..] == seq(n - 1, _ => "00") + [g];
    }
  }

  /** For fewer than 255 switches the written MAC is exactly `mac_from_value(s + 1)`. */
  lemma SwitchMacAsWrittenAgrees(s: nat)
    requires s + 1 < 256
    ensures SwitchMac(s) == Some(SwitchMacAsWritten(s))
  {
    var v := SwitchMacValue(s);
    SmallValueDigits(v);
    SmallValueGroups(v);
    JoinZeroGroups(5, HexFixed(v, 2));
    assert ZeroPrefix(5) == "00:00:00:00:00:";
  }

  lemma Hex02Of256()
    ensures Hex02(256) == "100"
  {
    assert HexDigitCount(1) == 1;
    assert HexDigitCount(16) == 2;
    assert HexDigitCount(256) == 3;
    assert HexFixed(1, 1) == "1";
    assert HexFixed(16, 2) == "10";
    assert HexFixed(256, 3) == "100";
  }

  /** Text whose last ':'-separated group is not two characters is no MAC. */
  lemma LastGroupNotPair(x: string, y: string)
    requires ':' !in y && |y| != 2
    ensures ParseMac(x + [':'] + y) == None
  {
    SplitAround(x, ':', y);
    SplitNoSep(y, ':');
    var groups := Split(x + [':'] + y, ':');
    assert groups[|groups| - 1] == y;
  }

  lemma Mac256()
    ensures SwitchMac(255).Some? && ParseMac(SwitchMac(255).value) == Some(256)
  {
    assert Pow16(2) == 256;
    Pow16Monotone(3, 12);
    HexDigitCountFits(256, 12);
    MacRoundTrip(256);
  }

  /**
   * Switch 255 (there are 320 switches when k = 16) is given
   * "00:00:00:00:00:100": three digits in its last group, so it is no
   * six-group MAC, unlike `mac_from_value(256)`.
   */
  lemma SwitchMacAsWrittenMalformed()
    ensures SwitchCount(16) == 320
    ensures SwitchMacAsWritten(255) == "00:00:00:00:00:100"
    ensures ParseMac(SwitchMacAsWritten(255)) == None
    ensures SwitchMac(255).Some? && ParseMac(SwitchMac(255).value) == Some(256)
  {
    Hex02Of256();
    assert "00:00:00:00:00:" + "100" == "00:00:00:00:00:100";
    assert "00:00:00:00:00" + [':'] + "100" == "00:00:00:00:00:100";
    LastGroupNotPair("00:00:00:00:00", "100");
    Mac256();
  }

  /** The value behind host i's MAC in `main`: `len(switches) + i + 1`. */
  function HostMacValue(nSwitches: nat, i: nat): nat
  {
    nSwitches + i + 1
  }

  /** Host i's MAC in `main`: `mac_from_value(len(switches) + i + 1)`. */
  function HostMac(nSwitches: nat, i: nat): Option<string>
  {
    MacFromValue(HostMacValue(nSwitches, i))
  }

  /** Two different values below 2^48 get two different MACs. */
  lemma MacsDiffer(a: nat, b: nat)
    requires a < Pow16(12) && b < Pow16(12) && a != b
    ensures MacFromValue(a).Some? && MacFromValue(b).Some?
    ensures MacFromValue(a) != MacFromValue(b)
  {
    assert MacDigits(a) == 12 && MacDigits(b) == 12;
    if MacFromValue(a) == MacFromValue(b) {
      MacInjective(a, b);
    }
  }

  /**
   * Host MACs start above every switch's value, so within 48 bits no host
   * shares a MAC with a switch or with another host.
   */
  lemma MacsDistinct(nSwitches: nat, s: nat, i: nat, j: nat)
    requires s < nSwitches && nSwitches + i + 1 < Pow16(12) && nSwitches + j + 1 < Pow16(12)
    ensures SwitchMac(s).Some? && HostMac(nSwitches, i).Some?
    ensures SwitchMac(s) != HostMac(nSwitches, i)
    ensures i != j ==> HostMac(nSwitches, i) != HostMac(nSwitches, j)
  {
    MacsDiffer(SwitchMacValue(s), HostMacValue(nSwitches, i));
    if i != j {
      MacsDiffer(HostMacValue(nSwitches, i), HostMacValue(nSwitches, j));
    }
  }

  // ------------------------------------------------------------ ARP table

  /** One `setARP(ip, mac_from_value(macValue))` call. */
  datatype Arp = Arp(ip: nat, macValue: nat)

  /** Where host j's entry sits in host i's list, which skips i itself. */
  function Slot(i: nat, j: nat): nat
    requires j != i
  {
    if j < i then j else j - 1
  }

  /**
   * The `setARP` calls host i makes for hosts j < n other than itself, in
   * order; None where `host_to_ip[j]` raises a KeyError.
   */
  function ArpEntries(nSwitches: nat, hostToIp: map<nat, nat>, i: nat, n: nat): (r: Option<seq<Arp>>)
    ensures r.Some? <==> forall j :: 0 <= j < n && j != i ==> j in hostToIp
    ensures r.Some? ==> |r.value| == if i < n then n - 1 else n
  {
    if n == 0 then Some([])
    else
      var rest := ArpEntries(nSwitches, hostToIp, i, n - 1);
      var j := n - 1;
      if j == i then rest
      else if rest.None? || j !in hostToIp then None
      else Some(rest.value + [Arp(hostToIp[j], HostMacValue(nSwitches, j))])
  }

  /**
   * Host i's entry for every other host j holds j's address and exactly the
   * MAC host j was given.
   */
  lemma ArpEntriesMatchHostMacs(nSwitches: nat, hostToIp: map<nat, nat>, i: nat, n: nat, j: nat)
    requires ArpEntries(nSwitches, hostToIp, i, n).Some?
    requires j < n && j != i
    ensures var r := ArpEntries(nSwitches, hostToIp, i, n).value;
            && Slot(i, j) < |r| && r[Slot(i, j)].ip == hostToIp[j]
            && MacFromValue(r[Slot(i, j)].macValue) == HostMac(nSwitches, j)
  {
    ArpEntryAt(nSwitches, hostToIp, i, n, j);
  }

  /** Host i's entry for host j sits at `Slot(i, j)` and carries j's address and MAC number. */
  lemma {:induction false} ArpEntryAt(nSwitches: nat, hostToIp: map<nat, nat>, i: nat, n: nat, j: nat)
    requires ArpEntries(nSwitches, hostToIp, i, n).Some?
    requires j < n && j != i
    ensures var r := ArpEntries(nSwitches, hostToIp, i, n).value;
            Slot(i, j) < |r| && r[Slot(i, j)] == Arp(hostToIp[j], HostMacValue(nSwitches, j))
  {
    if j < n - 1 {
      ArpEntryAt(nSwitches, hostToIp, i, n - 1, j);
    }
  }

  // ---------------------------------------------------------------- names

  /** The networkx name of a node: `'h' + str(n)` or `'s' + str(n)`. */
  function GraphName(n: Node): string
  {
    match n
    case Host(i) => "h" + NatToString(i)
    case Switch(s) => "s" + NatToString(s)
  }

  /** The Mininet name: hosts keep theirs, switch s becomes `'s' + str(s + 1)`. */
  function MininetName(n: Node): string
  {
    match n
    case Host(i) => "h" + NatToString(i)
    case Switch(s) => "s" + NatToString(s + 1)
  }

  /** Python's `str(x)` for any integer. */
  function SignedString(x: int): string
  {
    if x >= 0 then NatToString(x) else "-" + NatToString(-x)
  }

  /** The node a graph name denotes, when it is one. */
  function ParseNode(name: string): (r: Option<Node>)
    ensures r.Some? ==> |name| >= 1 && ParseNat(name[1..]) == Some(r.value.n)
  {
    if |name| == 0 then None
    else
      match ParseNat(name[1..])
      case None => None
      case Some(i) => if name[0] == 'h' then Some(Host(i)) else if name[0] == 's' then Some(Switch(i)) else None
  }

  lemma ParseGraphName(n: Node)
    ensures ParseNode(GraphName(n)) == Some(n)
  {
    ParseNatToString(n.n);
    assert GraphName(n)[1..] == NatToString(n.n);
  }

  /** `'s' + str(int(f[1:]) - 1)`: a Mininet switch name back to its graph name. */
  function GraphNameOfSwitch(f: string): (r: Option<string>)
    requires |f| >= 1
  {
    match ParseNat(f[1..])
    case None => None
    case Some(v) => Some("s" + SignedString(v - 1))
  }

  /** The Mininet node of one edge end and the graph name recovered from it. */
  datatype End = End(mn: string, graph: string)

  /**
   * One end `e` of a graph edge in `F10Top.build`: `mn_hosts[int(e[1:])]`
   * or `mn_switches[int(e[1:])]` and the graph name recovered from it;
   * None where Python raises (empty name, non-numeric suffix, list index
   * out of range).
   */
  function Endpoint(nHosts: nat, nSwitches: nat, e: string): (r: Option<End>)
    ensures r.Some? ==> |e| >= 1 && ParseNat(e[1..]).Some?
  {
    if |e| == 0 then None
    else
      match ParseNat(e[1..])
      case None => None
      case Some(i) =>
        if e[0] == 'h' then
          if i < nHosts then Some(End(MininetName(Host(i)), MininetName(Host(i)))) else None
        else if i < nSwitches then
          var f := MininetName(Switch(i));
          match GraphNameOfSwitch(f)
          case None => None
          case Some(g) => Some(End(f, g))
        else None
  }

  lemma HostEndpoint(nHosts: nat, nSwitches: nat, h: nat)
    requires h < nHosts
    ensures Endpoint(nHosts, nSwitches, GraphName(Host(h))) == Some(End(MininetName(Host(h)), GraphName(Host(h))))
  {
    ParseNatToString(h);
    assert GraphName(Host(h))[1..] == NatToString(h);
  }

  lemma SwitchEndpoint(nHosts: nat, nSwitches: nat, s: nat)
    requires s < nSwitches
    ensures Endpoint(nHosts, nSwitches, GraphName(Switch(s))) == Some(End(MininetName(Switch(s)), GraphName(Switch(s))))
  {
    var e, f := GraphName(Switch(s)), MininetName(Switch(s));
    ParseNatToString(s);
    assert e[1..] == NatToString(s);
    ParseNatToString(s + 1);
    assert f[1..] == NatToString(s + 1);
    assert GraphNameOfSwitch(f) == Some(e);
  }

  /** The graph name of an existing node survives the trip through its Mininet name. */
  lemma EndpointOfNode(nHosts: nat, nSwitches: nat, n: Node)
    requires n.Host? ==> n.n < nHosts
    requires n.Switch? ==> n.n < nSwitches
    ensures Endpoint(nHosts, nSwitches, GraphName(n)) == Some(End(MininetName(n), GraphName(n)))
  {
    if n.Host? {
      HostEndpoint(nHosts, nSwitches, n.n);
    } else {
      SwitchEndpoint(nHosts, nSwitches, n.n);
    }
  }

  /** One `addLink(f1, f2, port1=..., port2=...)` call. */
  datatype MnLink = MnLink(a: string, b: string, port1: int, port2: int)

  /**
   * The link built for graph edge `e`: both Mininet ends and the ports
   * `outport_mappings[(f1_graph, f2_graph)]` and the reverse. The port map
   * is keyed by nodes, so a recovered graph name is parsed before the
   * lookup; None where a lookup raises.
   */
  function BuildLink(t: Topology, e: (string, string)): (r: Option<MnLink>)
  {
    var a :- Endpoint(t.nHosts, t.nSwitches, e.0);
    var b :- Endpoint(t.nHosts, t.nSwitches, e.1);
    var na :- ParseNode(a.graph);
    var nb :- ParseNode(b.graph);
    if (na, nb) in t.ports && (nb, na) in t.ports then
      Some(MnLink(a.mn, b.mn, t.ports[(na, nb)], t.ports[(nb, na)]))
    else None
  }

  /** An edge whose ends exist and whose two ports are recorded becomes that link. */
  lemma BuildLinkOfEdge(t: Topology, u: Node, w: Node)
    requires u.Host? ==> u.n < t.nHosts
    requires u.Switch? ==> u.n < t.nSwitches
    requires w.Host? ==> w.n < t.nHosts
    requires w.Switch? ==> w.n < t.nSwitches
    requires (u, w) in t.ports && (w, u) in t.ports
    ensures BuildLink(t, (GraphName(u), GraphName(w)))
              == Some(MnLink(MininetName(u), MininetName(w), t.ports[(u, w)], t.ports[(w, u)]))
  {
    EndpointOfNode(t.nHosts, t.nSwitches, u);
    EndpointOfNode(t.nHosts, t.nSwitches, w);
    ParseGraphName(u);
    ParseGraphName(w);
  }

  /** A host edge of the builder names a host below `n_servers`. */
  lemma HostBelowServers(nServers: nat, k: nat, l: Link)
    requires k >= 2 && IsHostEdge(k / 2, ServersPerSwitch(nServers, k), l)
    ensures l.host < nServers
  {
    var nsps, nspl := ServersPerSwitch(nServers, k), PerLayer(k);
    Bits.MulLe(l.sw + 1, nspl, nsps);
    assert nspl * nsps <= nServers;
  }

  /** The ends of every edge of the AB topology exist among its hosts and switches. */
  lemma EdgeEndsExist(nServers: nat, k: nat, l: Link)
    requires k >= 2 && l in Links(ABTree, k / 2, ServersPerSwitch(nServers, k))
    ensures Within(l, SwitchCount(k))
    ensures l.HostLink? ==> l.host < nServers
  {
    AssignedTable(nServers, k);
    LinksCharacterised(ABTree, k / 2, ServersPerSwitch(nServers, k), l);
    if l.HostLink? {
      HostBelowServers(nServers, k, l);
    }
  }

  /**
   * Every edge of the AB topology, in either orientation networkx reports
   * it, becomes a link between the two Mininet names carrying the ports
   * the builder recorded for that edge.
   */
  lemma BuildLinksOfTopology(nServers: nat, k: nat, i: nat, flip: bool)
    requires k >= 2
    requires i < |GenerateTopology(nServers, k).graph.links|
    ensures var t := GenerateTopology(nServers, k);
            var (x, y) := Keys(t.graph.links[i]).0;
            var (u, w) := if flip then (y, x) else (x, y);
            BuildLink(t, (GraphName(u), GraphName(w)))
              == Some(MnLink(MininetName(u), MininetName(w), t.ports[(u, w)], t.ports[(w, u)]))
  {
    var t := GenerateTopology(nServers, k);
    var l := t.graph.links[i];
    EdgeEndsExist(nServers, k, l);
    var (x, y) := Keys(l).0;
    assert Keys(l).1 == (y, x);
    if flip {
      BuildLinkOfEdge(t, y, x);
    } else {
      BuildLinkOfEdge(t, x, y);
    }
  }
}
