/**
 * What a controller's switch object sees: the topology it was loaded with
 * (node addresses, adjacency, `outport_mappings`, `n_ports`) and its own
 * mutable state (dead switches, pushback records, pushback ids seen).
 */
module Network {
  import opened Wrappers
  import opened Bits
  import opened Address
  import opened Fabric

  /** The `stack` tag of a pushback: "A", "B" or "" (a top-level failure). */
  datatype Stack = StackA | StackB | NoStack

  /** One `pb_messages` entry. */
  datatype PbRecord = PbRecord(from: Node, failedPrefix: nat, failedLevel: nat, stack: Stack)

  /** A `TopoSwitch`: its graph name, its address and the state the handlers change. */
  datatype SwitchState = SwitchState(
    name: Node,
    addr: nat,
    dead: seq<Node>,
    preDead: seq<Node>,
    pbMessages: map<nat, PbRecord>,
    seenPbs: seq<int>)

  /**
   * The loaded `topo`: `n_ports`, the graph's nodes with their addresses in
   * node order, its adjacency, `outport_mappings` and `switch_to_ip`.
   */
  datatype Net = Net(
    nPorts: nat,
    nodes: seq<(Node, nat)>,
    adj: set<(Node, Node)>,
    ports: map<(Node, Node), int>,
    switchIp: map<Node, nat>)

  /** The elements of s that satisfy f, in order. */
  function Filter<T(!new)>(s: seq<T>, f: T -> bool): (r: seq<T>)
    ensures |r| <= |s|
    ensures forall x :: x in r <==> x in s && f(x)
  {
    if |s| == 0 then []
    else
      var rest := Filter(s[1..], f);
      assert forall x :: x in s <==> x == s[0] || x in s[1..];
      if f(s[0]) then [s[0]] + rest else rest
  }

  /** Index of the first element of s that satisfies f. */
  function FirstIndex<T>(s: seq<T>, f: T -> bool): (r: Option<nat>)
    ensures r.Some? ==> r.value < |s| && f(s[r.value]) && forall j :: 0 <= j < r.value ==> !f(s[j])
    ensures r.None? ==> forall j :: 0 <= j < |s| ==> !f(s[j])
  {
    if |s| == 0 then None
    else if f(s[0]) then Some(0)
    else
      match FirstIndex(s[1..], f)
      case None => None
      case Some(i) => Some(i + 1)
  }

  /** `get_neighbor_ip_map().items()`: the graph's nodes adjacent to `name`, in node order. */
  function Neighbors(net: Net, name: Node): (r: seq<(Node, nat)>)
    ensures forall x :: x in r <==> x in net.nodes && (name, x.0) in net.adj
  {
    Filter(net.nodes, (x: (Node, nat)) => (name, x.0) in net.adj)
  }

  /** `b = ceil(log2(n_ports / 2))`, the width of one level's share of a location. */
  function PrefixBits(net: Net): nat
    requires net.nPorts >= 2
  {
    CeilLog2(net.nPorts / 2)
  }

  /** Every neighbour and every pushback sender has an `outport_mappings` entry. */
  predicate PortsKnown(net: Net, sw: SwitchState)
  {
    && (forall x :: x in net.nodes && (sw.name, x.0) in net.adj ==> (sw.name, x.0) in net.ports)
    && (forall fp :: fp in sw.pbMessages ==> (sw.name, sw.pbMessages[fp].from) in net.ports)
  }

  /** Filtering keeps every element exactly when all of them satisfy f. */
  lemma {:induction false} FilterKeepsAll<T(!new)>(s: seq<T>, f: T -> bool)
    ensures |Filter(s, f)| == |s| <==> forall x :: x in s ==> f(x)
  {
    if |s| > 0 {
      FilterKeepsAll(s[1..], f);
      assert forall x :: x in s <==> x == s[0] || x in s[1..];
      assert |Filter(s[1..], f)| <= |s[1..]|;
    }
  }

  /** Filters that agree on every element give the same list. */
  lemma {:induction false} FilterCongruent<T(!new)>(s: seq<T>, f: T -> bool, g: T -> bool)
    requires forall x :: x in s ==> f(x) == g(x)
    ensures Filter(s, f) == Filter(s, g)
  {
    if |s| > 0 {
      assert forall x :: x in s[1..] ==> x in s;
      FilterCongruent(s[1..], f, g);
    }
  }

  /** A filter no element passes gives the empty list. */
  lemma FilterNone<T(!new)>(s: seq<T>, f: T -> bool)
    requires forall x :: x in s ==> !f(x)
    ensures Filter(s, f) == []
  {
  }

  /** Index searches whose tests agree on every element find the same index. */
  lemma {:induction false} FirstIndexCongruent<T(!new)>(s: seq<T>, f: T -> bool, g: T -> bool)
    requires forall x :: x in s ==> f(x) == g(x)
    ensures FirstIndex(s, f) == FirstIndex(s, g)
  {
    if |s| > 0 {
      assert forall x :: x in s[1..] ==> x in s;
      FirstIndexCongruent(s[1..], f, g);
    }
  }
}
