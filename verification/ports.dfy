/**
 * Port numbering of topology.py: every switch starts with `k` open ports;
 * each edge takes the switch's current counter as its port number there and
 * decrements the counter; a host always uses port 1.
 */
module Ports {
  import opened Fabric

  /** `open_ports` (one counter per switch number) and `outport_mappings`. */
  datatype PortTable = PortTable(open: seq<int>, ports: map<(Node, Node), int>)

  /** The switch endpoints of l index `open_ports` without an IndexError. */
  predicate Within(l: Link, n: nat)
  {
    match l
    case HostLink(s, _) => s < n
    case SwitchLink(a, t) => a < n && t < n
  }

  predicate AllWithin(links: seq<Link>, n: nat)
  {
    forall i :: 0 <= i < |links| ==> Within(links[i], n)
  }

  /** The two `outport_mappings` keys an edge writes. */
  function Keys(l: Link): ((Node, Node), (Node, Node))
  {
    match l
    case HostLink(s, h) => ((Switch(s), Host(h)), (Host(h), Switch(s)))
    case SwitchLink(a, t) => ((Switch(a), Switch(t)), (Switch(t), Switch(a)))
  }

  /** One edge's bookkeeping, statement by statement as in the builder. */
  function Step(st: PortTable, l: Link): (r: PortTable)
    requires Within(l, |st.open|)
    ensures |r.open| == |st.open|
    ensures r.ports.Keys == st.ports.Keys + {Keys(l).0, Keys(l).1}
  {
    match l
    case HostLink(s, h) =>
      PortTable(st.open[s := st.open[s] - 1],
                st.ports[(Switch(s), Host(h)) := st.open[s]][(Host(h), Switch(s)) := 1])
    case SwitchLink(a, t) =>
      var ports := st.ports[(Switch(a), Switch(t)) := st.open[a]][(Switch(t), Switch(a)) := st.open[t]];
      var open1 := st.open[a := st.open[a] - 1];
      PortTable(open1[t := open1[t] - 1], ports)
  }

  /** The builder's edge loop, edge after edge. */
  function Assign(st: PortTable, links: seq<Link>): (r: PortTable)
    requires AllWithin(links, |st.open|)
    ensures |r.open| == |st.open|
    decreases |links|
  {
    if |links| == 0 then st else Assign(Step(st, links[0]), links[1..])
  }

  /**
   * The invariant the counters keep: every switch-side port is at most k and
   * above the switch's current counter, ports at one switch are pairwise
   * distinct, and host-side ports are 1.
   */
  predicate PortsOk(st: PortTable, k: int)
  {
    && (forall i :: 0 <= i < |st.open| ==> st.open[i] <= k)
    && (forall e :: e in st.ports && e.0.Host? ==> st.ports[e] == 1)
    && (forall e :: e in st.ports && e.0.Switch? ==>
          e.0.n < |st.open| && st.open[e.0.n] < st.ports[e] <= k)
    && Distinct(st.ports)
  }

  /** No two neighbours of one switch share a port number. */
  predicate Distinct(ports: map<(Node, Node), int>)
  {
    forall e, f :: e in ports && f in ports && e.0.Switch? && e.0 == f.0 && e != f ==> ports[e] != ports[f]
  }

  /** Switch a gives its current counter to neighbour `other` and decrements it. */
  function Take(st: PortTable, a: nat, other: Node): PortTable
    requires a < |st.open|
  {
    PortTable(st.open[a := st.open[a] - 1], st.ports[(Switch(a), other) := st.open[a]])
  }

  lemma TakeKeepsPortsOk(st: PortTable, a: nat, other: Node, k: int)
    requires a < |st.open| && PortsOk(st, k)
    ensures PortsOk(Take(st, a, other), k)
  {
    var r := Take(st, a, other);
    var key := (Switch(a), other);
    forall e, f | e in r.ports && f in r.ports && e.0.Switch? && e.0 == f.0 && e != f
      ensures r.ports[e] != r.ports[f]
    {
      if e == key {
        assert r.ports[f] == st.ports[f] > st.open[a];
      } else if f == key {
        assert r.ports[e] == st.ports[e] > st.open[a];
      }
    }
  }

  lemma DecrementKeepsPortsOk(st: PortTable, a: nat, k: int)
    requires a < |st.open| && PortsOk(st, k)
    ensures PortsOk(PortTable(st.open[a := st.open[a] - 1], st.ports), k)
  {
  }

  lemma HostSideKeepsPortsOk(st: PortTable, h: nat, s: nat, k: int)
    requires PortsOk(st, k)
    ensures PortsOk(PortTable(st.open, st.ports[(Host(h), Switch(s)) := 1]), k)
  {
  }

  lemma SwitchStepIsTwoTakes(st: PortTable, a: nat, t: nat)
    requires a < |st.open| && t < |st.open| && a != t
    ensures Step(st, SwitchLink(a, t)) == Take(Take(st, a, Switch(t)), t, Switch(a))
  {
    var s1 := Take(st, a, Switch(t));
    assert s1.open[t] == st.open[t];
  }

  lemma StepKeepsPortsOk(st: PortTable, l: Link, k: int)
    requires Within(l, |st.open|) && PortsOk(st, k)
    ensures PortsOk(Step(st, l), k)
  {
    match l
    case HostLink(s, h) => HostStepKeepsPortsOk(st, s, h, k);
    case SwitchLink(a, t) => SwitchStepKeepsPortsOk(st, a, t, k);
  }

  lemma HostStepKeepsPortsOk(st: PortTable, s: nat, h: nat, k: int)
    requires Within(HostLink(s, h), |st.open|) && PortsOk(st, k)
    ensures PortsOk(Step(st, HostLink(s, h)), k)
  {
    TakeKeepsPortsOk(st, s, Host(h), k);
    var t := Take(st, s, Host(h));
    HostSideKeepsPortsOk(t, h, s, k);
    HostStepIsTake(st, s, h);
  }

  lemma HostStepIsTake(st: PortTable, s: nat, h: nat)
    requires s < |st.open|
    ensures var t := Take(st, s, Host(h));
            Step(st, HostLink(s, h)) == PortTable(t.open, t.ports[(Host(h), Switch(s)) := 1])
  {
  }

  lemma SwitchStepKeepsPortsOk(st: PortTable, a: nat, t: nat, k: int)
    requires Within(SwitchLink(a, t), |st.open|) && PortsOk(st, k)
    ensures PortsOk(Step(st, SwitchLink(a, t)), k)
  {
    TakeKeepsPortsOk(st, a, Switch(t), k);
    var s1 := Take(st, a, Switch(t));
    if a != t {
      TakeKeepsPortsOk(s1, t, Switch(a), k);
      SwitchStepIsTwoTakes(st, a, t);
    } else {
      DecrementKeepsPortsOk(s1, a, k);
      SelfStepIsTakeTwice(st, a);
    }
  }

  /** A self-loop takes switch a's counter, then decrements it once more. */
  lemma SelfStepIsTakeTwice(st: PortTable, a: nat)
    requires a < |st.open|
    ensures var s1 := Take(st, a, Switch(a));
            Step(st, SwitchLink(a, a)) == PortTable(s1.open[a := s1.open[a] - 1], s1.ports)
  {
  }

  lemma {:induction false} AssignKeepsPortsOk(st: PortTable, links: seq<Link>, k: int)
    requires AllWithin(links, |st.open|) && PortsOk(st, k)
    ensures PortsOk(Assign(st, links), k)
    decreases |links|
  {
    if |links| > 0 {
      StepKeepsPortsOk(st, links[0], k);
      AssignKeepsPortsOk(Step(st, links[0]), links[1..], k);
    }
  }

  /** Every edge leaves a port number at both of its endpoints. */
  lemma {:induction false} AssignRecordsEveryEdge(st: PortTable, links: seq<Link>)
    requires AllWithin(links, |st.open|)
    ensures st.ports.Keys <= Assign(st, links).ports.Keys
    ensures forall i :: 0 <= i < |links| ==>
              Keys(links[i]).0 in Assign(st, links).ports && Keys(links[i]).1 in Assign(st, links).ports
    decreases |links|
  {
    if |links| > 0 {
      AssignRecordsEveryEdge(Step(st, links[0]), links[1..]);
      forall i | 1 <= i < |links|
        ensures Keys(links[i]) == Keys(links[1..][i - 1])
      {
      }
    }
  }
}
