/**
 * The pushback protocol of f10_controller.py: `handle_StartPushback`, a
 * flood deduplicated by pushback id that either forwards the notice or
 * installs a `pb_messages` record, and the failure handlers
 * `pre_update_down_switches`, `update_down_switches` and
 * `_handle_ConnectionDown`.
 *
 * The global switch registry becomes an explicit world (switch name to
 * state) plus the registry order; delayed calls become returned call records.
 */
module Pushback {
  import opened Wrappers
  import opened Bits
  import opened Address
  import opened Fabric
  import opened Network
  import Routing

  /** Every switch state, keyed by graph name. */
  type World = map<Node, SwitchState>

  /** Each state sits under its own name, and every registered switch has a state. */
  predicate WorldOk(world: World, reg: seq<Node>)
  {
    && (forall n :: n in world ==> world[n].name == n)
    && (forall i :: 0 <= i < |reg| ==> reg[i] in world)
  }

  /** The switches that have not yet seen pushback id. */
  function Unseen(world: World, id: int): set<Node>
  {
    set n | n in world && id !in world[n].seenPbs
  }

  /** The forwarding gate: a top switch, or the prefix parity matching the subtree tag. */
  predicate Gate(lvl: nat, currPrefix: int, stack: Stack)
  {
    lvl == Top || (currPrefix % 2 == 0 && stack == StackA) || (currPrefix % 2 == 1 && stack == StackB)
  }

  /** Both prefixes of the receiving switch's comparison, each shifted by its own `b * lvl`. */
  predicate SameSubtree(net: Net, sw: SwitchState, fp: nat)
    requires net.nPorts >= 2
  {
    var shift := PrefixBits(net) * Level(sw.addr);
    Shr(Location(sw.addr), shift) == Shr(fp, shift)
  }

  /** `valid_neighbors`: all neighbours (same subtree) or the lower ones, minus dead ones and the sender. */
  predicate ValidNeighbor(net: Net, sw: SwitchState, from: Node, fp: nat, x: (Node, nat))
    requires net.nPorts >= 2
  {
    && x in Neighbors(net, sw.name)
    && (SameSubtree(net, sw, fp) || Level(x.1) == Level(sw.addr) - 1)
    && x.0 !in sw.dead && x.0 != from
  }

  /** Whether the switch forwards at all: its level reaches the failed level and the gate is open. */
  predicate Forwards(net: Net, sw: SwitchState, fl: nat, stack: Stack)
    requires net.nPorts >= 2
  {
    var lvl := Level(sw.addr);
    lvl >= fl && Gate(lvl, Shr(Location(sw.addr), PrefixBits(net) * lvl), stack)
  }

  /** The switches the handler recurses into, in registry order. */
  function Targets(net: Net, reg: seq<Node>, sw: SwitchState, from: Node, fp: nat, fl: nat, stack: Stack): (r: seq<Node>)
    requires net.nPorts >= 2
    ensures forall n :: n in r <==>
              n in reg && Forwards(net, sw, fl, stack)
              && exists x :: x in Neighbors(net, sw.name) && x.0 == n && ValidNeighbor(net, sw, from, fp, x)
  {
    if Forwards(net, sw, fl, stack) then
      var valid := Filter(Neighbors(net, sw.name), (x: (Node, nat)) => ValidNeighbor(net, sw, from, fp, x));
      var names := seq(|valid|, i requires 0 <= i < |valid| => valid[i].0);
      assert forall n :: n in names <==> exists x :: x in valid && x.0 == n by {
        forall n | n in names ensures exists x :: x in valid && x.0 == n {
          var i :| 0 <= i < |names| && names[i] == n;
          assert valid[i] in valid;
        }
        forall x | x in valid ensures x.0 in names {
          var i :| 0 <= i < |valid| && valid[i] == x;
          assert names[i] == x.0;
        }
      }
      Filter(reg, (n: Node) => n in names)
    else []
  }

  /** The sender is never a target, nor a dead switch; a switch outside the failed subtree only pushes down. */
  lemma TargetsAvoidSenderAndDead(net: Net, reg: seq<Node>, sw: SwitchState, from: Node, fp: nat, fl: nat, stack: Stack, n: Node)
    requires net.nPorts >= 2 && n in Targets(net, reg, sw, from, fp, fl, stack)
    ensures n != from && n !in sw.dead
    ensures Level(sw.addr) >= fl
    ensures Gate(Level(sw.addr), Shr(Location(sw.addr), PrefixBits(net) * Level(sw.addr)), stack)
    ensures !SameSubtree(net, sw, fp) ==>
              exists x :: x in Neighbors(net, sw.name) && x.0 == n && Level(x.1) == Level(sw.addr) - 1
  {
  }

  /** The record a switch installs: exactly the message's fields. */
  function Record(from: Node, fp: nat, fl: nat, stack: Stack): PbRecord
  {
    PbRecord(from, fp, fl, stack)
  }

  /** What the handler leaves in the receiving switch itself for a fresh id. */
  function Handled(net: Net, reg: seq<Node>, sw: SwitchState, id: int, from: Node, fp: nat, fl: nat, stack: Stack): SwitchState
    requires net.nPorts >= 2
  {
    var marked := sw.(seenPbs := sw.seenPbs + [id]);
    if |Targets(net, reg, sw, from, fp, fl, stack)| == 0 then
      marked.(pbMessages := sw.pbMessages[fp := Record(from, fp, fl, stack)])
    else marked
  }

  /** Records change at most by one record under key fp carrying the message's fields. */
  predicate PbChange(m: map<nat, PbRecord>, m': map<nat, PbRecord>, fp: nat, fl: nat, stack: Stack)
  {
    m' == m
    || (fp in m' && m' == m[fp := m'[fp]]
        && m'[fp].failedPrefix == fp && m'[fp].failedLevel == fl && m'[fp].stack == stack)
  }

  /**
   * How one switch may change during a flood of id: not at all if it had
   * seen id; otherwise id is appended at most once and at most one record
   * is installed; name, address, dead and pre-dead lists stay.
   */
  predicate Evolves(s: SwitchState, s': SwitchState, id: int, fp: nat, fl: nat, stack: Stack)
  {
    && (id in s.seenPbs ==> s' == s)
    && s'.name == s.name && s'.addr == s.addr && s'.dead == s.dead && s'.preDead == s.preDead
    && (s'.seenPbs == s.seenPbs || s'.seenPbs == s.seenPbs + [id])
    && PbChange(s.pbMessages, s'.pbMessages, fp, fl, stack)
  }

  lemma EvolvesTrans(a: SwitchState, b: SwitchState, c: SwitchState, id: int, fp: nat, fl: nat, stack: Stack)
    requires Evolves(a, b, id, fp, fl, stack) && Evolves(b, c, id, fp, fl, stack)
    ensures Evolves(a, c, id, fp, fl, stack)
  {
    if id !in a.seenPbs && b.seenPbs == a.seenPbs + [id] {
      assert id in b.seenPbs;
    }
    if b.pbMessages != a.pbMessages && c.pbMessages != b.pbMessages {
      assert c.pbMessages == a.pbMessages[fp := c.pbMessages[fp]];
    }
  }

  /** The flood keeps the world's shape and lets each switch change only as Evolves allows. */
  predicate FloodStep(world: World, w: World, reg: seq<Node>, id: int, fp: nat, fl: nat, stack: Stack)
  {
    && WorldOk(w, reg) && w.Keys == world.Keys
    && Unseen(w, id) <= Unseen(world, id)
    && forall n :: n in world ==> Evolves(world[n], w[n], id, fp, fl, stack)
  }

  lemma FloodStepTrans(w0: World, w1: World, w2: World, reg: seq<Node>, id: int, fp: nat, fl: nat, stack: Stack)
    requires FloodStep(w0, w1, reg, id, fp, fl, stack) && FloodStep(w1, w2, reg, id, fp, fl, stack)
    ensures FloodStep(w0, w2, reg, id, fp, fl, stack)
  {
    forall n | n in w0
      ensures Evolves(w0[n], w2[n], id, fp, fl, stack)
    {
      EvolvesTrans(w0[n], w1[n], w2[n], id, fp, fl, stack);
    }
  }

  /** `handle_StartPushback(world[target], id, from, fp, fl, stack)`. */
  function HandlePushback(net: Net, reg: seq<Node>, world: World, target: Node,
                          id: int, from: Node, fp: nat, fl: nat, stack: Stack): (w: World)
    requires net.nPorts >= 2 && WorldOk(world, reg) && target in world
    ensures FloodStep(world, w, reg, id, fp, fl, stack)
    ensures target !in Unseen(w, id)
    ensures id in world[target].seenPbs ==> w == world
    ensures id !in world[target].seenPbs ==>
              w[target] == Handled(net, reg, world[target], id, from, fp, fl, stack)
    decreases Unseen(world, id), 0
  {
    var sw := world[target];
    if id in sw.seenPbs then world
    else
      var marked := sw.(seenPbs := sw.seenPbs + [id]);
      var w1 := world[target := marked];
      assert Unseen(w1, id) < Unseen(world, id) by {
        assert target in Unseen(world, id) && target !in Unseen(w1, id);
      }
      assert FloodStep(world, w1, reg, id, fp, fl, stack);
      var targets := Targets(net, reg, sw, from, fp, fl, stack);
      var w2 := Flood(net, reg, w1, targets, sw.name, id, fp, fl, stack);
      FloodStepTrans(world, w1, w2, reg, id, fp, fl, stack);
      assert w2[target] == marked;
      if |targets| == 0 then
        var w3 := w2[target := marked.(pbMessages := sw.pbMessages[fp := Record(from, fp, fl, stack)])];
        assert Evolves(world[target], w3[target], id, fp, fl, stack);
        assert forall n :: n in world && n != target ==> w3[n] == w2[n];
        assert Unseen(w3, id) == Unseen(w2, id);
        w3
      else w2
  }

  /**
   * For a fresh id the receiving switch records id; it installs the message's
   * record under fp exactly when it has no target to push to, and keeps its
   * records otherwise.
   */
  lemma HandlePushbackInstalls(net: Net, reg: seq<Node>, world: World, target: Node,
                               id: int, from: Node, fp: nat, fl: nat, stack: Stack)
    requires net.nPorts >= 2 && WorldOk(world, reg) && target in world
    requires id !in world[target].seenPbs
    ensures var w := HandlePushback(net, reg, world, target, id, from, fp, fl, stack);
            && w[target].seenPbs == world[target].seenPbs + [id]
            && (|Targets(net, reg, world[target], from, fp, fl, stack)| == 0 ==>
                  w[target].pbMessages == world[target].pbMessages[fp := PbRecord(from, fp, fl, stack)])
            && (|Targets(net, reg, world[target], from, fp, fl, stack)| > 0 ==>
                  w[target].pbMessages == world[target].pbMessages)
  {
  }

  /** The handler's loop over the registry: recurse into every target in turn. */
  function Flood(net: Net, reg: seq<Node>, world: World, targets: seq<Node>, from: Node,
                 id: int, fp: nat, fl: nat, stack: Stack): (w: World)
    requires net.nPorts >= 2 && WorldOk(world, reg)
    requires forall n :: n in targets ==> n in reg
    ensures FloodStep(world, w, reg, id, fp, fl, stack)
    ensures forall n :: n in targets ==> n !in Unseen(w, id)
    decreases Unseen(world, id), 1, |targets|
  {
    if |targets| == 0 then world
    else
      assert targets[0] in world by {
        assert targets[0] in targets;
        var i :| 0 <= i < |reg| && reg[i] == targets[0];
      }
      var w1 := HandlePushback(net, reg, world, targets[0], id, from, fp, fl, stack);
      var w2 := Flood(net, reg, w1, targets[1..], from, id, fp, fl, stack);
      FloodStepTrans(world, w1, w2, reg, id, fp, fl, stack);
      assert forall n :: n in targets ==> n == targets[0] || n in targets[1..];
      w2
  }

  // ------------------------------------------------------ failure handlers

  /** `'s' + str(int(dpid) - 1)`: the graph name of the switch with datapath id dpid. */
  function DeadName(dpid: nat): Node
    requires dpid >= 1
  {
    Switch(dpid - 1)
  }

  /** `pre_update_down_switches(dpid)`: note the switch as about to be reported dead. */
  function PreUpdate(sw: SwitchState, dpid: nat): (r: SwitchState)
    requires dpid >= 1
    ensures r == sw.(preDead := r.preDead)
    ensures |r.preDead| == |sw.preDead| + 1 && r.preDead[..|sw.preDead|] == sw.preDead
    ensures r.preDead[|sw.preDead|] == DeadName(dpid)
  {
    sw.(preDead := sw.preDead + [DeadName(dpid)])
  }

  /** `list.remove(x)`: drop the first occurrence, or None (ValueError) when x is absent. */
  function RemoveFirst(s: seq<Node>, x: Node): (r: Option<seq<Node>>)
    ensures r.None? <==> x !in s
    ensures r.Some? ==> exists i :: 0 <= i < |s| && s[i] == x && x !in s[..i] && r.value == s[..i] + s[i + 1..]
    ensures r.Some? ==> multiset(r.value) + multiset{x} == multiset(s)
  {
    match FirstIndex(s, (y: Node) => y == x)
    case None => None
    case Some(i) =>
      DropOne(s, i);
      Some(s[..i] + s[i + 1..])
  }

  lemma DropOne(s: seq<Node>, i: nat)
    requires i < |s|
    ensures multiset(s[..i] + s[i + 1..]) + multiset{s[i]} == multiset(s)
    ensures forall j :: 0 <= j < i ==> s[..i][j] == s[j]
  {
    assert s == s[..i] + [s[i]] + s[i + 1..];
  }

  /** The exception `update_down_switches` can raise. */
  datatype Error = ValueError | KeyError

  /** A `core.callDelayed(0.025, handle_StartPushback, ...)` it schedules. */
  datatype PbCall = PbCall(at: Node, id: int, from: Node, failedPrefix: nat, failedLevel: nat, stack: Stack)

  /** The switch after the handler, and either the scheduled calls or the exception. */
  datatype Update = Updated(sw: SwitchState, calls: seq<PbCall>) | Failed(sw: SwitchState, error: Error)

  /** `failed_loc >> (b * failed_lvl)`. */
  function FailedPrefix(net: Net, addr: nat): nat
    requires net.nPorts >= 2
  {
    Shr(Location(addr), PrefixBits(net) * Level(addr))
  }

  /** The subtree tag: "A" for an even prefix, "B" for odd, "" for a top switch. */
  function StackOf(lvl: nat, prefix: nat): (s: Stack)
    ensures s == NoStack <==> lvl == Top
    ensures lvl != Top ==> (s == StackA <==> prefix % 2 == 0)
  {
    if lvl != Top then (if prefix % 2 == 0 then StackA else StackB) else NoStack
  }

  /**
   * The tag a failure carries opens the gate of a switch at level lvl with
   * prefix cp exactly when that switch is a top switch, or the failure was
   * below the top and both prefixes have the same parity.
   */
  lemma StackOpensGate(lvl: nat, cp: nat, fl: nat, fp: nat)
    ensures Gate(lvl, cp, StackOf(fl, fp)) <==> lvl == Top || (fl != Top && cp % 2 == fp % 2)
  {
  }

  /** `update_down_switches(dpid, pb_id)`. */
  function UpdateDownSwitches(net: Net, sw: SwitchState, dpid: nat, id: int): (u: Update)
    requires net.nPorts >= 2 && dpid >= 1
    ensures u.sw.dead == sw.dead + [DeadName(dpid)]
    ensures u.sw == sw.(dead := u.sw.dead, preDead := u.sw.preDead)
    ensures u.Failed? && u.error == ValueError <==> DeadName(dpid) !in sw.preDead
    ensures u.Failed? <==> DeadName(dpid) !in sw.preDead || DeadName(dpid) !in net.switchIp
    ensures u.Failed? && u.error == ValueError ==> u.sw.preDead == sw.preDead
    ensures DeadName(dpid) in sw.preDead ==> multiset(u.sw.preDead) + multiset{DeadName(dpid)} == multiset(sw.preDead)
    ensures u.Updated? ==>
              var addr := net.switchIp[DeadName(dpid)];
              var fp := FailedPrefix(net, addr);
              && (|u.calls| > 0 <==> exists x :: x in Neighbors(net, sw.name) && x.0 == DeadName(dpid)
                                                 && Level(x.1) == Level(sw.addr) - 1)
              && forall c :: c in u.calls ==>
                   c == PbCall(sw.name, id, DeadName(dpid), fp, Level(addr), StackOf(Level(addr), fp))
  {
    var name := DeadName(dpid);
    var sw1 := sw.(dead := sw.dead + [name]);
    match RemoveFirst(sw.preDead, name)
    case None => Failed(sw1, ValueError)
    case Some(rest) =>
      var sw2 := sw1.(preDead := rest);
      if name !in net.switchIp then Failed(sw2, KeyError)
      else
        var addr := net.switchIp[name];
        var fp := FailedPrefix(net, addr);
        Updated(sw2, PendingCalls(net, sw, name, PbCall(sw.name, id, name, fp, Level(addr), StackOf(Level(addr), fp))))
  }

  /** The loop `for k, _ in get_lower_neighbors(): if k == dead_switch_name: callDelayed(...)`. */
  function PendingCalls(net: Net, sw: SwitchState, name: Node, call: PbCall): (r: seq<PbCall>)
    ensures |r| > 0 <==> exists x :: x in Neighbors(net, sw.name) && x.0 == name && Level(x.1) == Level(sw.addr) - 1
    ensures forall c :: c in r ==> c == call
  {
    var lower := Filter(Neighbors(net, sw.name), (x: (Node, nat)) => Level(x.1) == Level(sw.addr) - 1);
    var hits := Filter(lower, (x: (Node, nat)) => x.0 == name);
    assert |hits| > 0 ==> hits[0] in hits;
    seq(|hits|, _ => call)
  }

  /** After `pre_update_down_switches(dpid)`, `update_down_switches(dpid, ...)` cannot raise ValueError, and it undoes the pre-update. */
  lemma UpdateAfterPreUpdate(net: Net, sw: SwitchState, dpid: nat, id: int)
    requires net.nPorts >= 2 && dpid >= 1
    ensures var u := UpdateDownSwitches(net, PreUpdate(sw, dpid), dpid, id);
            && !(u.Failed? && u.error == ValueError)
            && (DeadName(dpid) in net.switchIp ==> u.Updated?)
            && multiset(u.sw.preDead) == multiset(sw.preDead)
            && u.sw.dead == sw.dead + [DeadName(dpid)]
  {
    var pre := PreUpdate(sw, dpid);
    var name := DeadName(dpid);
    assert pre.preDead == sw.preDead + [name];
    assert multiset(pre.preDead) == multiset(sw.preDead) + multiset{name};
    var u := UpdateDownSwitches(net, pre, dpid, id);
    MultisetCancel(multiset(u.sw.preDead), multiset(sw.preDead), name);
  }

  lemma MultisetCancel(a: multiset<Node>, b: multiset<Node>, x: Node)
    requires a + multiset{x} == b + multiset{x}
    ensures a == b
  {
    assert a == (a + multiset{x}) - multiset{x};
    assert b == (b + multiset{x}) - multiset{x};
  }

  /** `_handle_ConnectionDown`: every registered switch, in order, runs `pre_update_down_switches`. */
  function ConnectionDown(world: World, reg: seq<Node>, dpid: nat): (w: World)
    requires dpid >= 1 && WorldOk(world, reg)
    ensures WorldOk(w, reg) && w.Keys == world.Keys
    ensures forall n :: n in world ==>
              w[n] == world[n].(preDead := w[n].preDead)
              && w[n].preDead == world[n].preDead + Copies(Count(reg, n), DeadName(dpid))
    decreases |reg|
  {
    if |reg| == 0 then world
    else
      var last := reg[|reg| - 1];
      var w1 := ConnectionDown(world, reg[..|reg| - 1], dpid);
      assert last in world;
      var w := w1[last := PreUpdate(w1[last], dpid)];
      ConnectionDownStep(world, reg, dpid, w1, w);
      w
  }

  /** One more registered switch noting the dead one adds one more entry to its pre-dead list only. */
  lemma ConnectionDownStep(world: World, reg: seq<Node>, dpid: nat, w1: World, w: World)
    requires dpid >= 1 && |reg| > 0 && WorldOk(world, reg)
    requires WorldOk(w1, reg[..|reg| - 1]) && w1.Keys == world.Keys
    requires forall n :: n in world ==>
               w1[n] == world[n].(preDead := w1[n].preDead)
               && w1[n].preDead == world[n].preDead + Copies(Count(reg[..|reg| - 1], n), DeadName(dpid))
    requires reg[|reg| - 1] in w1 && w == w1[reg[|reg| - 1] := PreUpdate(w1[reg[|reg| - 1]], dpid)]
    ensures WorldOk(w, reg) && w.Keys == world.Keys
    ensures forall n :: n in world ==>
              w[n] == world[n].(preDead := w[n].preDead)
              && w[n].preDead == world[n].preDead + Copies(Count(reg, n), DeadName(dpid))
  {
    var last := reg[|reg| - 1];
    assert w.Keys == world.Keys;
    forall n | n in w
      ensures w[n].name == n
    {
      assert n in w1;
    }
    forall n | n in world
      ensures w[n] == world[n].(preDead := w[n].preDead)
      ensures w[n].preDead == world[n].preDead + Copies(Count(reg, n), DeadName(dpid))
    {
      ConnectionDownEntry(world[n], w1[n], reg, dpid, n);
    }
  }

  /** Switch n's entry after the step, from its entry before. */
  lemma ConnectionDownEntry(orig: SwitchState, before: SwitchState, reg: seq<Node>, dpid: nat, n: Node)
    requires dpid >= 1 && |reg| > 0
    requires before == orig.(preDead := before.preDead)
    requires before.preDead == orig.preDead + Copies(Count(reg[..|reg| - 1], n), DeadName(dpid))
    ensures var after := if n == reg[|reg| - 1] then PreUpdate(before, dpid) else before;
            && after == orig.(preDead := after.preDead)
            && after.preDead == orig.preDead + Copies(Count(reg, n), DeadName(dpid))
  {
    var c, d := Count(reg[..|reg| - 1], n), DeadName(dpid);
    assert Count(reg, n) == c + (if n == reg[|reg| - 1] then 1 else 0);
    if n == reg[|reg| - 1] {
      var a, copies := orig.preDead, Copies(c, d);
      assert Copies(c + 1, d) == copies + [d];
      assert (a + copies) + [d] == a + (copies + [d]);
    }
  }

  /** `[x] * n`: n copies of x. */
  function Copies(n: nat, x: Node): (r: seq<Node>)
    ensures |r| == n && forall i :: 0 <= i < n ==> r[i] == x
  {
    if n == 0 then [] else Copies(n - 1, x) + [x]
  }

  /** How often n occurs in the registry. */
  function Count(reg: seq<Node>, n: Node): nat
  {
    if |reg| == 0 then 0 else Count(reg[..|reg| - 1], n) + (if reg[|reg| - 1] == n then 1 else 0)
  }

  /** A connection going down changes no routing decision anywhere: only pre-dead lists grow. */
  lemma ConnectionDownKeepsRouting(net: Net, world: World, reg: seq<Node>, dpid: nat, n: Node, dst: nat, inPort: int)
    requires net.nPorts >= 2 && dpid >= 1 && WorldOk(world, reg) && n in world && PortsKnown(net, world[n])
    ensures PortsKnown(net, ConnectionDown(world, reg, dpid)[n])
    ensures Routing.F10Route(net, ConnectionDown(world, reg, dpid)[n], dst, inPort)
            == Routing.F10Route(net, world[n], dst, inPort)
  {
    var w := ConnectionDown(world, reg, dpid);
    Routing.PreDeadIsOnlyStatistics(net, world[n], w[n].preDead, dst, inPort);
  }
}
