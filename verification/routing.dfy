/**
 * The per-packet forwarding decision of `_handle_PacketIn`, in the F10
 * controller (failure-aware, f10_controller.py) and in the failure-free
 * controller (jelly_controller.py).
 *
 * A switch at level `lvl` with location `loc` compares `loc >> (b * lvl)`
 * with the destination's `dest_location >> (b * lvl)`: equal prefixes mean
 * the destination lies below it (route down), otherwise route up.
 */
module Routing {
  import opened Wrappers
  import opened Bits
  import opened Address
  import opened Fabric
  import opened Network

  /** What the handler does with one IPv4 packet. */
  datatype Outcome =
    | Out(port: int)          // one `resend_packet` on this port
    | AnyOf(ports: set<int>)  // `random.choice` retried until acceptable: one packet on one of these
    | Silent                  // no packet is sent
    | Crash                   // the handler raises (IndexError, NameError or KeyError)
    | Spin                    // `while True` with no acceptable candidate never ends

  // ------------------------------------------------------ level 0: the host

  /** The `for h in hosts: if h[1] == dstip: dsthost = h[0]` loop: the last node with address dst. */
  function LastWithAddr(nodes: seq<(Node, nat)>, dst: nat): (r: Option<nat>)
    ensures r.Some? ==> r.value < |nodes| && nodes[r.value].1 == dst
    ensures r.Some? ==> forall j :: r.value < j < |nodes| ==> nodes[j].1 != dst
    ensures r.None? <==> forall j :: 0 <= j < |nodes| ==> nodes[j].1 != dst
  {
    if |nodes| == 0 then None
    else if nodes[|nodes| - 1].1 == dst then Some(|nodes| - 1)
    else LastWithAddr(nodes[..|nodes| - 1], dst)
  }

  /**
   * A level-0 switch delivering to the host: `outport_mappings[(self, dsthost)]`.
   * No node with address dst leaves `dsthost` unbound (NameError); a host not
   * attached here has no port entry (KeyError).
   */
  function DeliverToHost(net: Net, self: Node, dst: nat): (o: Outcome)
    ensures o.Out? || o.Crash?
    ensures o.Out? ==> exists i :: 0 <= i < |net.nodes| && net.nodes[i].1 == dst
                                   && (self, net.nodes[i].0) in net.ports && o.port == net.ports[(self, net.nodes[i].0)]
    ensures (forall i :: 0 <= i < |net.nodes| ==> net.nodes[i].1 != dst) ==> o.Crash?
  {
    match LastWithAddr(net.nodes, dst)
    case None => Crash
    case Some(i) =>
      var h := net.nodes[i].0;
      if (self, h) in net.ports then Out(net.ports[(self, h)]) else Crash
  }

  /** With exactly one node carrying address dst, attached here, delivery uses its port. */
  lemma DeliverToUniqueHost(net: Net, self: Node, dst: nat, i: nat)
    requires i < |net.nodes| && net.nodes[i].1 == dst && (self, net.nodes[i].0) in net.ports
    requires forall j :: 0 <= j < |net.nodes| && j != i ==> net.nodes[j].1 != dst
    ensures DeliverToHost(net, self, dst) == Out(net.ports[(self, net.nodes[i].0)])
  {
    var r := LastWithAddr(net.nodes, dst);
    assert r.Some?;
    assert r.value == i;
  }

  // ------------------------------------------------------------ candidates

  /** Route down: the prefixes agree, or the switch is a top switch (F10 only). */
  predicate GoesDown(net: Net, sw: SwitchState, dst: nat, topOverride: bool)
    requires net.nPorts >= 2
  {
    var b, lvl := PrefixBits(net), Level(sw.addr);
    Prefix(Location(sw.addr), b, lvl) == Prefix(Location(dst), b, lvl) || (topOverride && lvl == Top)
  }

  /** A neighbour below whose location matches the destination one level down. */
  predicate MatchesBelow(net: Net, sw: SwitchState, dst: nat, x: (Node, nat))
    requires net.nPorts >= 2 && Level(sw.addr) >= 1
  {
    var shift := PrefixBits(net) * (Level(sw.addr) - 1);
    Shr(Location(x.1), shift) == Shr(Location(dst), shift)
  }

  /** `valid_neighbors` when routing down from level >= 1. */
  function DownValid(net: Net, sw: SwitchState, dst: nat): (r: seq<(Node, nat)>)
    requires net.nPorts >= 2 && Level(sw.addr) >= 1
    ensures forall x :: x in r <==> x in Neighbors(net, sw.name) && MatchesBelow(net, sw, dst, x)
  {
    Filter(Neighbors(net, sw.name), (x: (Node, nat)) => MatchesBelow(net, sw, dst, x))
  }

  /** `upper_level`: the neighbours one level up. */
  function Upper(net: Net, sw: SwitchState): (r: seq<(Node, nat)>)
    ensures forall x :: x in r <==> x in Neighbors(net, sw.name) && Level(x.1) == Level(sw.addr) + 1
  {
    Filter(Neighbors(net, sw.name), (x: (Node, nat)) => Level(x.1) == Level(sw.addr) + 1)
  }

  /** The candidate list before the fallback: `valid_neighbors` down, `upper_level` up. */
  function Candidates(net: Net, sw: SwitchState, dst: nat, topOverride: bool): (r: seq<(Node, nat)>)
    requires net.nPorts >= 2
    ensures forall x :: x in r ==> x in Neighbors(net, sw.name)
  {
    if GoesDown(net, sw, dst, topOverride) then
      if Level(sw.addr) == 0 then [] else DownValid(net, sw, dst)
    else Upper(net, sw)
  }

  /** `outport_mappings[(self, n)]` for each neighbour n of the list, in order. */
  function PortsOf(net: Net, sw: SwitchState, xs: seq<(Node, nat)>): (r: seq<int>)
    requires forall x :: x in xs ==> (sw.name, x.0) in net.ports
  {
    seq(|xs|, i requires 0 <= i < |xs| => net.ports[(sw.name, xs[i].0)])
  }

  /** The keys of the pushback records that cover the destination. */
  function PbMatching(net: Net, sw: SwitchState, dst: nat): (r: set<nat>)
    requires net.nPorts >= 2
  {
    set fp | fp in sw.pbMessages && Shr(Location(dst), PrefixBits(net) * sw.pbMessages[fp].failedLevel) == fp
  }

  /** The ports of dead candidates, one per dead candidate. */
  function DeadPorts(net: Net, sw: SwitchState, dst: nat, topOverride: bool): (r: seq<int>)
    requires net.nPorts >= 2 && PortsKnown(net, sw)
    ensures |r| <= |Candidates(net, sw, dst, topOverride)|
  {
    PortsOf(net, sw, Filter(Candidates(net, sw, dst, topOverride), (x: (Node, nat)) => x.0 in sw.dead))
  }

  /** `invalid_ports` as a set: dead candidates and senders of covering pushback records. */
  function Invalid(net: Net, sw: SwitchState, dst: nat, topOverride: bool): (r: set<int>)
    requires net.nPorts >= 2 && PortsKnown(net, sw)
  {
    (set q | q in DeadPorts(net, sw, dst, topOverride))
      + (set fp | fp in PbMatching(net, sw, dst) :: net.ports[(sw.name, sw.pbMessages[fp].from)])
  }

  /** `len(invalid_ports)`: one entry per dead candidate and per covering pushback record. */
  function InvalidCount(net: Net, sw: SwitchState, dst: nat, topOverride: bool): nat
    requires net.nPorts >= 2 && PortsKnown(net, sw)
  {
    |DeadPorts(net, sw, dst, topOverride)| + |PbMatching(net, sw, dst)|
  }

  /** "No valid switches": as many invalid entries as candidates. */
  predicate FallsBack(net: Net, sw: SwitchState, dst: nat, topOverride: bool)
    requires net.nPorts >= 2 && PortsKnown(net, sw)
  {
    |Candidates(net, sw, dst, topOverride)| == InvalidCount(net, sw, dst, topOverride)
  }

  /** The list the switch finally picks from: all neighbours after the fallback. */
  function Choices(net: Net, sw: SwitchState, dst: nat, topOverride: bool): (r: seq<(Node, nat)>)
    requires net.nPorts >= 2 && PortsKnown(net, sw)
    ensures forall x :: x in r ==> x in Neighbors(net, sw.name) && (sw.name, x.0) in net.ports
  {
    if FallsBack(net, sw, dst, topOverride) then Neighbors(net, sw.name) else Candidates(net, sw, dst, topOverride)
  }

  /** A neighbour the F10 switch may send to: neither the ingress port nor an invalid one. */
  predicate Accepts(net: Net, self: Node, inPort: int, invalid: set<int>, x: (Node, nat))
  {
    (self, x.0) in net.ports && net.ports[(self, x.0)] != inPort && net.ports[(self, x.0)] !in invalid
  }

  /** Routing down from level >= 1: the first acceptable choice, or nothing (`for ... break`). */
  function PickDown(net: Net, self: Node, choices: seq<(Node, nat)>, invalid: set<int>, inPort: int): (o: Outcome)
    ensures o.Out? || o.Silent?
    ensures o.Out? ==> exists x :: x in choices && Accepts(net, self, inPort, invalid, x) && o.port == net.ports[(self, x.0)]
    ensures o.Silent? <==> forall x :: x in choices ==> !Accepts(net, self, inPort, invalid, x)
  {
    match FirstIndex(choices, (x: (Node, nat)) => Accepts(net, self, inPort, invalid, x))
    case None => Silent
    case Some(i) => Out(net.ports[(self, choices[i].0)])
  }

  /**
   * Routing up: `random.choice` on an empty list raises; otherwise the loop
   * retries until it draws an acceptable choice, or forever if there is none.
   */
  function PickUp(net: Net, self: Node, choices: seq<(Node, nat)>, invalid: set<int>, inPort: int): (o: Outcome)
    ensures o.Crash? <==> |choices| == 0
    ensures o.Crash? || o.Spin? || o.AnyOf?
    ensures o.Spin? <==> |choices| > 0 && forall x :: x in choices ==> !Accepts(net, self, inPort, invalid, x)
    ensures o.AnyOf? ==> forall q :: q in o.ports <==>
              exists x :: x in choices && Accepts(net, self, inPort, invalid, x) && q == net.ports[(self, x.0)]
  {
    if |choices| == 0 then Crash
    else
      var ports := set x | x in choices && Accepts(net, self, inPort, invalid, x) :: net.ports[(self, x.0)];
      assert forall x :: x in choices && Accepts(net, self, inPort, invalid, x) ==> net.ports[(self, x.0)] in ports;
      if ports == {} then Spin else AnyOf(ports)
  }

  // ------------------------------------------------------------------ F10

  /** `_handle_PacketIn` of f10_controller.py for a packet to dst that came in on inPort. */
  function F10Route(net: Net, sw: SwitchState, dst: nat, inPort: int): (o: Outcome)
    requires net.nPorts >= 2 && PortsKnown(net, sw)
    ensures o.Crash? ==> (GoesDown(net, sw, dst, true) && Level(sw.addr) == 0)
                         || (!GoesDown(net, sw, dst, true) && |Choices(net, sw, dst, true)| == 0)
    ensures o.Silent? ==> GoesDown(net, sw, dst, true) && Level(sw.addr) >= 1
    ensures GoesDown(net, sw, dst, true) && Level(sw.addr) == 0 ==> o == DeliverToHost(net, sw.name, dst)
    ensures GoesDown(net, sw, dst, true) && Level(sw.addr) >= 1 ==>
              (o.Silent? <==> forall x :: x in Choices(net, sw, dst, true)
                                          ==> !Accepts(net, sw.name, inPort, Invalid(net, sw, dst, true), x))
    ensures o.Spin? || o.AnyOf? ==> !GoesDown(net, sw, dst, true)
    ensures o.Out? ==> GoesDown(net, sw, dst, true)
    ensures !GoesDown(net, sw, dst, true) ==>
              && (o.Crash? <==> |Choices(net, sw, dst, true)| == 0)
              && (o.Spin? <==> |Choices(net, sw, dst, true)| > 0
                               && forall x :: x in Choices(net, sw, dst, true)
                                              ==> !Accepts(net, sw.name, inPort, Invalid(net, sw, dst, true), x))
    ensures o.Out? && Level(sw.addr) >= 1 ==>
              GoesDown(net, sw, dst, true)
              && exists x :: x in Choices(net, sw, dst, true)
                             && Accepts(net, sw.name, inPort, Invalid(net, sw, dst, true), x)
                             && o.port == net.ports[(sw.name, x.0)]
    ensures o.AnyOf? ==> o.ports != {}
    ensures o.AnyOf? ==> forall q :: q in o.ports <==>
              exists x :: x in Choices(net, sw, dst, true)
                          && Accepts(net, sw.name, inPort, Invalid(net, sw, dst, true), x)
                          && q == net.ports[(sw.name, x.0)]
  {
    var choices := Choices(net, sw, dst, true);
    var invalid := Invalid(net, sw, dst, true);
    if GoesDown(net, sw, dst, true) then
      if Level(sw.addr) == 0 then DeliverToHost(net, sw.name, dst)
      else PickDown(net, sw.name, choices, invalid, inPort)
    else PickUp(net, sw.name, choices, invalid, inPort)
  }

  /** The candidate list depends on a switch's name and address only. */
  lemma CandidatesAgree(net: Net, sw: SwitchState, sw': SwitchState, dst: nat)
    requires net.nPorts >= 2 && sw'.name == sw.name && sw'.addr == sw.addr
    ensures GoesDown(net, sw', dst, true) == GoesDown(net, sw, dst, true)
    ensures Candidates(net, sw', dst, true) == Candidates(net, sw, dst, true)
  {
    var nbrs := Neighbors(net, sw.name);
    if GoesDown(net, sw, dst, true) {
      if Level(sw.addr) >= 1 {
        FilterCongruent(nbrs, (x: (Node, nat)) => MatchesBelow(net, sw', dst, x),
                        (x: (Node, nat)) => MatchesBelow(net, sw, dst, x));
      }
    } else {
      FilterCongruent(nbrs, (x: (Node, nat)) => Level(x.1) == Level(sw'.addr) + 1,
                      (x: (Node, nat)) => Level(x.1) == Level(sw.addr) + 1);
    }
  }

  /** Two states that differ only in `pre_dead_switches` see the same candidates and invalid ports. */
  lemma SameView(net: Net, sw: SwitchState, sw': SwitchState, dst: nat)
    requires net.nPorts >= 2 && PortsKnown(net, sw)
    requires sw' == sw.(preDead := sw'.preDead)
    ensures PortsKnown(net, sw')
    ensures GoesDown(net, sw', dst, true) == GoesDown(net, sw, dst, true)
    ensures Invalid(net, sw', dst, true) == Invalid(net, sw, dst, true)
    ensures Choices(net, sw', dst, true) == Choices(net, sw, dst, true)
  {
    assert sw'.name == sw.name && sw'.addr == sw.addr && sw'.dead == sw.dead && sw'.pbMessages == sw.pbMessages;
    CandidatesAgree(net, sw, sw', dst);
    var cands := Candidates(net, sw, dst, true);
    FilterCongruent(cands, (x: (Node, nat)) => x.0 in sw'.dead, (x: (Node, nat)) => x.0 in sw.dead);
    assert DeadPorts(net, sw', dst, true) == DeadPorts(net, sw, dst, true);
    assert PbMatching(net, sw', dst) == PbMatching(net, sw, dst);
  }

  /** pre_dead_switches only feed a statistics message: they never change the decision. */
  lemma PreDeadIsOnlyStatistics(net: Net, sw: SwitchState, preDead: seq<Node>, dst: nat, inPort: int)
    requires net.nPorts >= 2 && PortsKnown(net, sw)
    ensures PortsKnown(net, sw.(preDead := preDead))
    ensures F10Route(net, sw.(preDead := preDead), dst, inPort) == F10Route(net, sw, dst, inPort)
  {
    var sw' := sw.(preDead := preDead);
    SameView(net, sw, sw', dst);
  }

  /** Without a covering pushback record, the fallback happens exactly when every candidate is dead. */
  lemma FallbackIffAllDead(net: Net, sw: SwitchState, dst: nat, topOverride: bool)
    requires net.nPorts >= 2 && PortsKnown(net, sw) && PbMatching(net, sw, dst) == {}
    ensures FallsBack(net, sw, dst, topOverride)
            <==> forall x :: x in Candidates(net, sw, dst, topOverride) ==> x.0 in sw.dead
  {
    FilterKeepsAll(Candidates(net, sw, dst, topOverride), (x: (Node, nat)) => x.0 in sw.dead);
  }

  /** Routing down without the fallback, the F10 switch sends toward the destination's subtree. */
  lemma F10DownTowardDest(net: Net, sw: SwitchState, dst: nat, inPort: int)
    requires net.nPorts >= 2 && PortsKnown(net, sw) && Level(sw.addr) >= 1
    requires !FallsBack(net, sw, dst, true) && F10Route(net, sw, dst, inPort).Out?
    ensures exists x :: x in Neighbors(net, sw.name) && MatchesBelow(net, sw, dst, x)
                        && F10Route(net, sw, dst, inPort).port == net.ports[(sw.name, x.0)]
  {
    var x :| x in Choices(net, sw, dst, true) && Accepts(net, sw.name, inPort, Invalid(net, sw, dst, true), x)
             && F10Route(net, sw, dst, inPort).port == net.ports[(sw.name, x.0)];
    assert x in DownValid(net, sw, dst);
  }

  /** Routing up without the fallback, every port the F10 switch may use leads one level up. */
  lemma F10UpGoesUp(net: Net, sw: SwitchState, dst: nat, inPort: int, q: int)
    requires net.nPorts >= 2 && PortsKnown(net, sw)
    requires !FallsBack(net, sw, dst, true) && F10Route(net, sw, dst, inPort).AnyOf?
    requires q in F10Route(net, sw, dst, inPort).ports
    ensures exists x :: x in Neighbors(net, sw.name) && Level(x.1) == Level(sw.addr) + 1
                        && q == net.ports[(sw.name, x.0)]
  {
    var x :| x in Choices(net, sw, dst, true) && Accepts(net, sw.name, inPort, Invalid(net, sw, dst, true), x)
             && q == net.ports[(sw.name, x.0)];
    UpChoiceIsUpper(net, sw, dst, x);
  }

  /** Going up without the fallback, every choice is a neighbour one level up. */
  lemma UpChoiceIsUpper(net: Net, sw: SwitchState, dst: nat, x: (Node, nat))
    requires net.nPorts >= 2 && PortsKnown(net, sw)
    requires !FallsBack(net, sw, dst, true) && !GoesDown(net, sw, dst, true)
    requires x in Choices(net, sw, dst, true)
    ensures x in Neighbors(net, sw.name) && Level(x.1) == Level(sw.addr) + 1
  {
    assert x in Upper(net, sw);
  }

  // --------------------------------------------------------------- jelly

  /** The up-ports of the failure-free controller: one per neighbour a level up. */
  function UpperPorts(net: Net, sw: SwitchState): (r: set<int>)
    requires PortsKnown(net, sw)
  {
    set x | x in Upper(net, sw) :: net.ports[(sw.name, x.0)]
  }

  /**
   * `_handle_PacketIn` of jelly_controller.py; `topOverride` adds the F10
   * controller's `or lvl == 2` to the down test.
   */
  function JellyDecide(net: Net, sw: SwitchState, dst: nat, topOverride: bool): (o: Outcome)
    requires net.nPorts >= 2 && PortsKnown(net, sw)
    ensures !o.Spin?
    ensures GoesDown(net, sw, dst, topOverride) && Level(sw.addr) == 0 ==> o == DeliverToHost(net, sw.name, dst)
    ensures o.Crash? && Level(sw.addr) >= 1 <==> !GoesDown(net, sw, dst, topOverride) && Level(sw.addr) >= 1 && |Upper(net, sw)| == 0
    ensures !GoesDown(net, sw, dst, topOverride) ==> (o.Crash? <==> |Upper(net, sw)| == 0)
    ensures o.Out? ==> GoesDown(net, sw, dst, topOverride)
    ensures o.Silent? <==> (GoesDown(net, sw, dst, topOverride) && Level(sw.addr) >= 1
                            && forall x :: x in Neighbors(net, sw.name) ==> !MatchesBelow(net, sw, dst, x))
    ensures o.Out? && Level(sw.addr) >= 1 ==>
              GoesDown(net, sw, dst, topOverride)
              && exists x :: x in Neighbors(net, sw.name) && MatchesBelow(net, sw, dst, x)
                             && o.port == net.ports[(sw.name, x.0)]
    ensures o.AnyOf? <==> !GoesDown(net, sw, dst, topOverride) && |Upper(net, sw)| > 0
    ensures o.AnyOf? ==> o.ports == UpperPorts(net, sw)
  {
    var lvl := Level(sw.addr);
    var nbrs := Neighbors(net, sw.name);
    if GoesDown(net, sw, dst, topOverride) then
      if lvl == 0 then DeliverToHost(net, sw.name, dst)
      else
        match FirstIndex(nbrs, (x: (Node, nat)) => MatchesBelow(net, sw, dst, x))
        case None => Silent
        case Some(i) => Out(net.ports[(sw.name, nbrs[i].0)])
    else
      var upper := Upper(net, sw);
      if |upper| == 0 then Crash
      else
        assert upper[0] in upper;
        AnyOf(UpperPorts(net, sw))
  }

  /**
   * jelly_controller.py as written, with no top-level override: a top
   * switch whose prefix differs from the destination's routes "up" to
   * nobody, and `random.choice([])` raises.
   */
  function JellyRouteAsWritten(net: Net, sw: SwitchState, dst: nat): (o: Outcome)
    requires net.nPorts >= 2 && PortsKnown(net, sw)
    ensures (Level(sw.addr) == Top && !GoesDown(net, sw, dst, false)
             && forall x :: x in net.nodes ==> Level(x.1) <= Top) ==> o.Crash?
  {
    if Level(sw.addr) == Top && (forall x :: x in net.nodes ==> Level(x.1) <= Top) then
      NothingAboveTop(net, sw);
      JellyDecide(net, sw, dst, false)
    else
      JellyDecide(net, sw, dst, false)
  }

  /** With no node above the top level, a top switch has no upper neighbour. */
  lemma NothingAboveTop(net: Net, sw: SwitchState)
    requires Level(sw.addr) == Top && forall x :: x in net.nodes ==> Level(x.1) <= Top
    ensures |Upper(net, sw)| == 0
  {
    FilterNone(Neighbors(net, sw.name), (x: (Node, nat)) => Level(x.1) == Level(sw.addr) + 1);
  }

  /** The failure-free controller with the top-level override: a top switch always routes down. */
  function JellyRoute(net: Net, sw: SwitchState, dst: nat): (o: Outcome)
    requires net.nPorts >= 2 && PortsKnown(net, sw)
    ensures Level(sw.addr) == Top ==> o.Out? || o.Silent?
    ensures Level(sw.addr) == Top && o.Out? ==>
              exists x :: x in Neighbors(net, sw.name) && MatchesBelow(net, sw, dst, x)
                          && o.port == net.ports[(sw.name, x.0)]
  {
    JellyDecide(net, sw, dst, true)
  }

  /**
   * The crash is reachable in the AB-tree with k = 4: top switch 16 has
   * location 0 and level 2, host 4 of 8 has location 4, and with b = 1 their
   * level-2 prefixes 0 and 1 differ.
   */
  lemma JellyTopSwitchCrashExample()
    ensures SwitchIps(4)[16] == TopAddr(0)
    ensures Level(TopAddr(0)) == Top && Location(TopAddr(0)) == 0
    ensures 4 in HostIps(8, 4)
    ensures HostIps(8, 4)[4] == HostAddr(4, 0) && Location(HostAddr(4, 0)) == 4
    ensures CeilLog2(4 / 2) == 1
    ensures Prefix(0, 1, Top) == 0 && Prefix(4, 1, Top) == 1
  {
    TopAddrIsPack(0);
    DecodePack(0, Top, 0);
    HostAddrIsPack(4, 0);
    DecodePack(4, 0, 1);
    assert Pow2(2) == 4;
    assert CeilLog2(1) == 0;
    assert Pow2(LocationBits(4)) == 8;
  }

  /**
   * With nothing dead and no pushback records, the F10 switch routing up
   * picks among the failure-free controller's up-ports, less the ingress port.
   */
  lemma F10UpWithoutFailures(net: Net, sw: SwitchState, dst: nat, inPort: int)
    requires net.nPorts >= 2 && PortsKnown(net, sw) && sw.dead == [] && sw.pbMessages == map[]
    requires !GoesDown(net, sw, dst, true) && |Upper(net, sw)| > 0
    ensures JellyRoute(net, sw, dst) == AnyOf(UpperPorts(net, sw))
    ensures var rest := UpperPorts(net, sw) - {inPort};
            F10Route(net, sw, dst, inPort) == if rest == {} then Spin else AnyOf(rest)
  {
    NothingInvalid(net, sw, dst);
    PickUpWithoutInvalid(net, sw, inPort);
  }

  /** Picking among the up-neighbours with nothing invalid excludes the ingress port only. */
  lemma PickUpWithoutInvalid(net: Net, sw: SwitchState, inPort: int)
    requires PortsKnown(net, sw) && |Upper(net, sw)| > 0
    ensures var rest := UpperPorts(net, sw) - {inPort};
            PickUp(net, sw.name, Upper(net, sw), {}, inPort) == if rest == {} then Spin else AnyOf(rest)
  {
    var o := PickUp(net, sw.name, Upper(net, sw), {}, inPort);
    var rest := UpperPorts(net, sw) - {inPort};
    if o.AnyOf? {
      assert o.ports == rest;
    } else {
      assert o.Spin?;
    }
  }

  /** With nothing dead and no pushback records nothing is invalid and routing up picks among all up-neighbours. */
  lemma NothingInvalid(net: Net, sw: SwitchState, dst: nat)
    requires net.nPorts >= 2 && PortsKnown(net, sw) && sw.dead == [] && sw.pbMessages == map[]
    requires !GoesDown(net, sw, dst, true) && |Upper(net, sw)| > 0
    ensures Invalid(net, sw, dst, true) == {}
    ensures Choices(net, sw, dst, true) == Upper(net, sw)
  {
    FilterNone(Candidates(net, sw, dst, true), (x: (Node, nat)) => x.0 in sw.dead);
    assert DeadPorts(net, sw, dst, true) == [];
    assert PbMatching(net, sw, dst) == {};
  }
}
