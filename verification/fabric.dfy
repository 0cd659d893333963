/**
 * The shape of the two-level AB fat-tree (topology.py) and of the plain
 * fat-tree (fat_tree_topology.py): sizes, switch numbering, addresses and
 * the wiring, link by link in the order the builders create them.
 *
 * With `p = k / 2` and the fixed depth L = 2 there are `2 p^2` switches on
 * each of levels 0 and 1, numbered `i * 2p^2 + m * p^i + j` (level i, group
 * m, index j in the group), and `p^2` top switches numbered from `4 p^2`.
 */
module Fabric {
  import opened Bits
  import opened Address

  /** The top level; the builders only support L = 2. */
  const Top: nat := 2

  /** A graph node: host `'h' + str(n)` or switch `'s' + str(n)`. */
  datatype Node = Host(n: nat) | Switch(n: nat)

  /** One `G.add_edge` call: switch to host, or switch `from` to switch `to`. */
  datatype Link = HostLink(sw: nat, host: nat) | SwitchLink(from: nat, to: nat)

  /** AB-tree (A/B level-1 wiring) or plain fat-tree (block wiring everywhere). */
  datatype Variant = ABTree | FatTree

  /** `2 * p ** L` for L = 2: the switches on each of levels 0 and 1. */
  function Layer(p: nat): nat
  {
    2 * (p * p)
  }

  /** `n_switches_per_layer = 2 * p ** L` with `p = k / 2`. */
  function PerLayer(k: nat): nat
  {
    Layer(k / 2)
  }

  /** A layer holds at least two switches once p >= 1. */
  lemma LayerPositive(p: nat)
    requires p >= 1
    ensures Layer(p) >= 2
  {
    MulLe(1, p, p);
  }

  /** `num_servers_per_switch = n_servers / n_switches_per_layer`. */
  function ServersPerSwitch(nServers: nat, k: nat): nat
    requires k >= 2
  {
    LayerPositive(k / 2);
    Quot(nServers, PerLayer(k))
  }

  /** `total_switches = n_switches_per_layer * L + n_switches_per_layer / 2`. */
  function SwitchCount(k: nat): nat
  {
    PerLayer(k) * Top + PerLayer(k) / 2
  }

  /** `location_bit_length = 2 * ceil(log2 p) + 1`. */
  function LocationBits(k: nat): nat
    requires k >= 2
  {
    2 * CeilLog2(k / 2) + 1
  }

  /** Level of switch number s. */
  function LevelOf(k: nat, s: nat): nat
  {
    if s >= 2 * PerLayer(k) then 2 else if s >= PerLayer(k) then 1 else 0
  }

  // -------------------------------------------------------------- addresses

  /** A host's `10 << 24 | loc << 10 | (c + 1)`. */
  function HostAddr(loc: nat, c: nat): nat
  {
    BitOr(BitOr(Tag * Pow2(24), loc * Pow2(10)), c + 1)
  }

  /** A top switch's `10 << 24 | i << 8 | j`: no location field. */
  function TopAddr(j: nat): nat
  {
    BitOr(BitOr(Tag * Pow2(24), Top * Pow2(8)), j)
  }

  /** `m * p` for the group m = r / p that offset r falls in. */
  function GroupBase(r: nat, p: nat): (b: nat)
    requires p >= 1
    ensures b <= r < b + p
  {
    var m: nat := r / p;
    m * p
  }

  /** The address the builders give switch number s. */
  function SwitchAddr(k: nat, s: nat): nat
    requires k >= 2
  {
    var p, nspl := k / 2, PerLayer(k);
    if s >= 2 * nspl then TopAddr(s - 2 * nspl)
    else if s >= nspl then
      var r: nat := s - nspl;
      Pack(GroupBase(r, p), 1, r % p)
    else Pack(s, 0, 0)
  }

  /** `host_to_ip`: host `loc * nsps + c` for every location the bit width allows. */
  function HostIps(nServers: nat, k: nat): (ips: map<nat, nat>)
    requires k >= 2
  {
    var nsps := ServersPerSwitch(nServers, k);
    if nsps == 0 then map[]
    else map h | 0 <= h < Pow2(LocationBits(k)) * nsps :: HostAddr(Quot(h, nsps), h % nsps)
  }

  /** Host `h = loc * nsps + c` of a location the bit width allows has the host address of loc, count c. */
  lemma HostIpsAt(nServers: nat, k: nat, nsps: nat, loc: nat, c: nat, h: nat)
    requires k >= 2 && nsps == ServersPerSwitch(nServers, k)
    requires loc < Pow2(LocationBits(k)) && c < nsps && h == loc * nsps + c
    ensures h in HostIps(nServers, k) && HostIps(nServers, k)[h] == HostAddr(loc, c)
  {
    BelowProduct(loc, Pow2(LocationBits(k)), nsps, c, h);
    DivModOf(loc, nsps, c);
    HostIpsEntry(nServers, k, nsps, h, loc, c);
  }

  /** `loc * n + c` with `c < n` stays below `locs * n` when `loc < locs`. */
  lemma BelowProduct(loc: nat, locs: nat, n: nat, c: nat, h: nat)
    requires loc < locs && c < n && h == loc * n + c
    ensures h < locs * n
  {
    MulLe(loc + 1, locs, n);
    assert (loc + 1) * n == h - c + n;
  }

  /** Every host number below `2^LocationBits * nsps` is in `host_to_ip`, split by nsps. */
  lemma HostIpsEntry(nServers: nat, k: nat, nsps: nat, h: nat, loc: nat, c: nat)
    requires k >= 2 && nsps == ServersPerSwitch(nServers, k) && nsps > 0
    requires h < Pow2(LocationBits(k)) * nsps && loc == h / nsps && c == h % nsps
    ensures h in HostIps(nServers, k) && HostIps(nServers, k)[h] == HostAddr(loc, c)
  {
  }

  /** `switch_to_ip`: every switch number below `total_switches`. */
  function SwitchIps(k: nat): (ips: map<nat, nat>)
    requires k >= 2
    ensures forall s: nat :: s in ips <==> s < SwitchCount(k)
  {
    map s: nat | s < SwitchCount(k) :: SwitchAddr(k, s)
  }

  lemma HostAddrIsPack(loc: nat, c: nat)
    ensures HostAddr(loc, c) == Pack(loc, 0, c + 1)
  {
    assert 0 * Pow2(8) == 0;
  }

  /**
   * The fields of host c's address while `c + 1` stays within the low ten
   * bits: the location is loc, and `c + 1` spills from the index into the
   * level from c = 255 on.
   */
  lemma HostAddrFields(loc: nat, c: nat)
    requires loc < 16384 && c + 1 < 1024
    ensures Location(HostAddr(loc, c)) == loc
    ensures Level(HostAddr(loc, c)) == (c + 1) / 256 && Index(HostAddr(loc, c)) == (c + 1) % 256
  {
    Pow2Constants();
    var hi := Tag * 16384;
    assert Tag * Pow2(24) == hi * Pow2(10);
    BitOrScaled(hi, loc, 10);
    BitOrDisjoint(Tag, 14, loc);
    var w := hi + loc;
    assert BitOr(Tag * Pow2(24), loc * Pow2(10)) == w * Pow2(10);
    BitOrDisjoint(w, 10, c + 1);
    var q, r := (c + 1) / 256, (c + 1) % 256;
    assert HostAddr(loc, c) == (w * 4 + q) * 256 + r;
    DivModOf(w * 4 + q, 256, r);
    DivModOf(w, 4, q);
    assert HostAddr(loc, c) == w * 1024 + (c + 1);
    DivModOf(w, 1024, c + 1);
    DivModOf(Tag, 16384, loc);
  }

  lemma TopAddrIsPack(j: nat)
    ensures TopAddr(j) == Pack(0, Top, j)
  {
    assert 0 * Pow2(10) == 0;
  }

  // ----------------------------------------------------------------- wiring

  /**
   * The top switch (counted from the first one) that uplink n of level-1
   * switch j in group m reaches: block layout `j * p + n` for A groups and for
   * the fat-tree, transposed layout `n * p + j` for B (odd) groups.
   */
  function L1Uplink(v: Variant, p: nat, m: nat, j: nat, n: nat): nat
  {
    if v == FatTree || m % 2 == 0 then j * p + n else n * p + j
  }

  /**
   * The switch uplink n of level-0 switch m reaches: `(m / p) * p + nspl + n`
   * in topology.py, `(m / 2 + n) + (nspl + m / 2)` in fat_tree_topology.py.
   */
  function L0Uplink(v: Variant, p: nat, nspl: nat, m: nat, n: nat): nat
    requires p >= 1
  {
    if v == ABTree then m / p * p + nspl + n else (m / 2 + n) + (nspl + m / 2)
  }

  /**
   * Offset above `nspl` of the first uplink of level-0 switch m: the start
   * `(m / p) * p` of its level-1 group in the AB-tree, `2 * (m / 2)` in the
   * fat-tree as written.
   */
  function L0Base(v: Variant, p: nat, m: nat): nat
    requires p >= 1
  {
    if v == ABTree then Quot(m, p) * p else Quot(m, 2) * 2
  }

  lemma L0UplinkFromBase(v: Variant, p: nat, nspl: nat, m: nat, n: nat)
    requires p >= 1
    ensures L0Uplink(v, p, nspl, m, n) == nspl + L0Base(v, p, m) + n
  {
  }

  /** Concatenation of a sequence of sequences. */
  function Flatten<T>(ss: seq<seq<T>>): seq<T>
  {
    if |ss| == 0 then [] else ss[0] + Flatten(ss[1..])
  }

  /** The `p` uplinks of level-1 switch `nspl + g`, g = m * p + j. */
  function L1Links(v: Variant, p: nat, nspl: nat, g: nat): seq<Link>
    requires p >= 1
  {
    seq(p, n requires 0 <= n => SwitchLink(nspl + g, 2 * nspl + L1Uplink(v, p, g / p, g % p, n)))
  }

  /** Level-0 switch m: its host edges, then its p uplinks. */
  function L0Links(v: Variant, p: nat, nspl: nat, nsps: nat, m: nat): seq<Link>
    requires p >= 1
  {
    seq(nsps, n requires 0 <= n => HostLink(m, m * nsps + n)) + seq(p, n requires 0 <= n => SwitchLink(m, L0Uplink(v, p, nspl, m, n)))
  }

  /** Every edge of the builder in creation order: level 1 first, then level 0. */
  function Links(v: Variant, p: nat, nsps: nat): seq<Link>
    requires p >= 1
  {
    var nspl := Layer(p);
    Flatten(seq(nspl, g requires 0 <= g => L1Links(v, p, nspl, g)))
      + Flatten(seq(nspl, m requires 0 <= m => L0Links(v, p, nspl, nsps, m)))
  }

  lemma {:induction false} InFlatten<T>(ss: seq<seq<T>>, x: T)
    ensures x in Flatten(ss) <==> exists i :: 0 <= i < |ss| && x in ss[i]
  {
    if |ss| > 0 {
      InFlatten(ss[1..], x);
      if x in Flatten(ss[1..]) {
        var i :| 0 <= i < |ss[1..]| && x in ss[1..][i];
        assert x in ss[i + 1];
      }
      forall i | 1 <= i < |ss| && x in ss[i]
        ensures x in Flatten(ss[1..])
      {
        assert ss[1..][i - 1] == ss[i];
      }
    }
  }

  // ------------------------------------------------------- characterisation

  /** A host edge: level-0 switch `sw` to one of its `nsps` hosts. */
  predicate IsHostEdge(p: nat, nsps: nat, l: Link)
  {
    l.HostLink? && l.sw < Layer(p) && l.sw * nsps <= l.host < l.sw * nsps + nsps
  }

  /**
   * A level-0 uplink: one of the p switches from `nspl + L0Base`, which is
   * level-1 group `from / p` in the AB-tree.
   */
  predicate IsL0Edge(v: Variant, p: nat, l: Link)
    requires p >= 1
  {
    var nspl := Layer(p);
    l.SwitchLink? && l.from < nspl
    && nspl + L0Base(v, p, l.from) <= l.to < nspl + L0Base(v, p, l.from) + p
  }

  /**
   * A level-1 uplink from switch j of group m to top switch t: `t / p == j`
   * in the block layout, `t % p == j` in the transposed one.
   */
  predicate IsL1Edge(v: Variant, p: nat, l: Link)
    requires p >= 1
  {
    var nspl := Layer(p);
    l.SwitchLink? && nspl <= l.from < 2 * nspl && 2 * nspl <= l.to < 2 * nspl + p * p
    && var g, t := l.from - nspl, l.to - 2 * nspl;
       if v == FatTree || (g / p) % 2 == 0 then t / p == g % p else t % p == g % p
  }

  lemma QuotientBelow(t: nat, p: nat)
    requires p >= 1 && t < p * p
    ensures t / p < p
  {
    var q := t / p;
    if q >= p {
      MulLe(p, q, p);
      assert false;
    }
  }

  lemma RowBelow(j: nat, n: nat, p: nat)
    requires j < p && n < p
    ensures j * p + n < p * p
  {
    MulLe(j + 1, p, p);
  }

  lemma L1LinkIsEdge(v: Variant, p: nat, g: nat, n: nat)
    requires p >= 1 && g < Layer(p) && n < p
    ensures IsL1Edge(v, p, L1Links(v, p, Layer(p), g)[n])
  {
    var m, j := g / p, g % p;
    if v == FatTree || m % 2 == 0 {
      RowBelow(j, n, p);
      DivModOf(j, p, n);
    } else {
      RowBelow(n, j, p);
      DivModOf(n, p, j);
    }
  }

  lemma L1EdgeIndex(v: Variant, p: nat, l: Link) returns (n: nat)
    requires p >= 1 && IsL1Edge(v, p, l)
    ensures n < p && l == L1Links(v, p, Layer(p), l.from - Layer(p))[n]
  {
    var nspl := Layer(p);
    var g: nat, t: nat := l.from - nspl, l.to - 2 * nspl;
    var m, j := g / p, g % p;
    if v == FatTree || m % 2 == 0 {
      n := t % p;
      assert t == j * p + n;
    } else {
      QuotientBelow(t, p);
      DivNonnegative(t, p);
      var q := t / p;
      n := q;
      assert t == n * p + j;
    }
  }

  lemma {:induction false} InLevel1(v: Variant, p: nat, l: Link)
    requires p >= 1
    ensures l in Flatten(seq(Layer(p), g requires 0 <= g => L1Links(v, p, Layer(p), g)))
            <==> IsL1Edge(v, p, l)
  {
    var nspl := Layer(p);
    var ss := seq(nspl, g requires 0 <= g => L1Links(v, p, nspl, g));
    InFlatten(ss, l);
    if l in Flatten(ss) {
      var g :| 0 <= g < |ss| && l in ss[g];
      var n :| 0 <= n < p && l == L1Links(v, p, nspl, g)[n];
      L1LinkIsEdge(v, p, g, n);
    }
    if IsL1Edge(v, p, l) {
      var n := L1EdgeIndex(v, p, l);
      assert l in ss[l.from - nspl];
    }
  }

  /** Entry i of switch m's level-0 list is a host edge (i < nsps) or an uplink into its group. */
  lemma L0EntryIsEdge(v: Variant, p: nat, nsps: nat, m: nat, i: nat)
    requires p >= 1 && m < Layer(p) && i < nsps + p
    ensures var l := L0Links(v, p, Layer(p), nsps, m)[i];
            IsHostEdge(p, nsps, l) || IsL0Edge(v, p, l)
  {
    if i >= nsps {
      var l := L0Links(v, p, Layer(p), nsps, m)[i];
      assert l == SwitchLink(m, L0Uplink(v, p, Layer(p), m, i - nsps));
      L0UplinkFromBase(v, p, Layer(p), m, i - nsps);
    }
  }

  /** Every host edge and every level-0 uplink has its place in its switch's list. */
  lemma L0EdgeListed(v: Variant, p: nat, nsps: nat, l: Link)
    requires p >= 1 && (IsHostEdge(p, nsps, l) || IsL0Edge(v, p, l))
    ensures l.HostLink? ==> l.host - l.sw * nsps < nsps && L0Links(v, p, Layer(p), nsps, l.sw)[l.host - l.sw * nsps] == l
    ensures l.SwitchLink? ==>
              var n := l.to - Layer(p) - L0Base(v, p, l.from);
              0 <= n < p && L0Links(v, p, Layer(p), nsps, l.from)[nsps + n] == l
  {
    if l.SwitchLink? {
      L0UplinkFromBase(v, p, Layer(p), l.from, l.to - Layer(p) - L0Base(v, p, l.from));
    }
  }

  lemma {:induction false} InLevel0(v: Variant, p: nat, nsps: nat, l: Link)
    requires p >= 1
    ensures l in Flatten(seq(Layer(p), m requires 0 <= m => L0Links(v, p, Layer(p), nsps, m)))
            <==> IsHostEdge(p, nsps, l) || IsL0Edge(v, p, l)
  {
    var nspl := Layer(p);
    var ss := seq(nspl, m requires 0 <= m => L0Links(v, p, nspl, nsps, m));
    InFlatten(ss, l);
    if l in Flatten(ss) {
      var m :| 0 <= m < |ss| && l in ss[m];
      var i :| 0 <= i < |ss[m]| && l == ss[m][i];
      L0EntryIsEdge(v, p, nsps, m, i);
    }
    if IsHostEdge(p, nsps, l) || IsL0Edge(v, p, l) {
      L0EdgeListed(v, p, nsps, l);
      var m := if l.HostLink? then l.sw else l.from;
      assert l in ss[m];
    }
  }


  /** The builders' edges are exactly the three kinds of edge, in both directions. */
  lemma LinksCharacterised(v: Variant, p: nat, nsps: nat, l: Link)
    requires p >= 1
    ensures l in Links(v, p, nsps)
            <==> IsL1Edge(v, p, l) || IsHostEdge(p, nsps, l) || IsL0Edge(v, p, l)
  {
    InLevel1(v, p, l);
    InLevel0(v, p, nsps, l);
  }
}
