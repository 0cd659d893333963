# F10 / AB fat-tree fabric, modelled in Dafny

This project models the fabric logic of an F10-style data-centre network:

- the AB fat-tree topology builders;
- the addressing scheme they share with the POX controllers;
- the per-switch forwarding decision of the F10 and the failure-free ("jelly") controllers;
- the F10 pushback protocol for switch failures;
- the naming, port and MAC arithmetic of the Mininet emulation script.

The model is written in terms of immutable datatypes and pure functions.

## Modules

- `Bits`: Python integer operators on non-negative integers. `x >> n` is `x / 2^n` and `x & (2^n-1)` is `x % 2^n`. Python floors, and every value here is non-negative, so Dafny's Euclidean `/` and `%` agree. `a | c` is defined bit by bit. It is proved to be `+` on disjoint bit ranges.
- `Address`: the controllers' `ip_to_val`, `index`, `level` and `location`. Also the builders' packing `10<<24 | loc<<10 | lvl<<8 | idx` (`Pack`), `socket.inet_ntoa(struct.pack('!L', v))` (`InetNtoa`), and an integer `CeilLog2`.
- `Text`: `str.split`, `str.join`, `str(n)`, `int(s)` and fixed-width hex formatting.
- `Fabric`: switch numbering (`i * nspl + m * p^i + j`, with top switches at `2 * nspl + j`), `host_to_ip`, `switch_to_ip` and the edge lists of the two builders, each with its own level-0 uplink rule. `Variant` selects the AB tree of topology.py or the plain fat tree of fat_tree_topology.py. The edges are characterised as exactly the host edges, the level-0 uplinks and the level-1 uplinks.
- `Ports`: the `open_ports` counters and `outport_mappings` of topology.py, edge by edge.
- `Topology`: `generate_topology` of topology.py and fat_tree_topology.py (fixed at `L = 2`). It also holds the address and wiring properties of both.
- `Network`: what one controller switch object sees: the loaded topology (`Net`) and its own mutable state (`SwitchState`).
- `Routing`: `_handle_PacketIn` of both controllers, as a function to an `Outcome`. The outcomes are:
  - `Out(port)`: one packet;
  - `AnyOf(ports)`: `random.choice` among those ports;
  - `Silent`: no packet;
  - `Crash`: an IndexError or NameError;
  - `Spin`: the `while True` loop that never finds an acceptable port.
- `Pushback`: `handle_StartPushback` as a recursive flood over a map of switch states, plus `pre_update_down_switches`, `update_down_switches` and `_handle_ConnectionDown`.
- `PartialBuilder`: the earlier builder topology_f10.py, as methods with loop invariants.
- `Emulation`: `mac_from_value`, the graph-name/Mininet-name translation and link ports of `F10Top.build`, and the host MAC and ARP set-up of `main` in build_topology.py.

Nothing is random: `random.choice` is the set of ports it may pick, and the pushback id is a parameter.

## Model

| member | source | states |
|---|---|---|
| Address.Index | pox/pox/ext/f10_controller.py:25-26 | the index field of any address is below 256 |
| Address.Level | pox/pox/ext/f10_controller.py:28-29 | the level field of any address is below 4 |
| Address.Location | pox/pox/ext/f10_controller.py:31-32 | the location field of any address is below 2^14 |
| Address.CeilLog2 | pox/pox/ext/f10_controller.py:232 | `b = ceil(log2(n))` as the least b with `n <= 2^b` (`2^(b-1) < n` when b > 0) |
| Address.PackIsSum | topology.py:76 | `10<<24 \| loc<<10 \| lvl<<8 \| idx` equals the arithmetic sum of the shifted fields when every field fits its width |
| Address.DecodePack | pox/pox/ext/f10_controller.py:25-32 | `index`, `level` and `location` of a packed address give back idx, lvl and loc, and the top byte is 10 |
| Address.DecodeFields | pox/pox/ext/f10_controller.py:25-32 | the three field extractors applied to the sum of in-range fields give back those fields |
| Address.PackDecode | pox/pox/ext/f10_controller.py:25-32 | every address whose top byte is 10 is the packing of its own location, level and index |
| Address.IpToVal | pox/pox/ext/f10_controller.py:16-23 | `ip_to_val` returns a value exactly when every '.'-separated piece is a decimal numeral (otherwise `int()` raises) |
| Address.ParsePieces | pox/pox/ext/f10_controller.py:19-21 | `int()` of every piece succeeds exactly when all pieces are numerals, and then yields each piece's value in order |
| Address.OrFoldOfBytes | pox/pox/ext/f10_controller.py:18-21 | or-ing byte-valued pieces shifted by `8 * position from the right` gives their big-endian value, which is below `2^(8n)` |
| Address.IpToValDottedQuad | pox/pox/ext/f10_controller.py:16-23 | `ip_to_val("a.b.c.d") == a*2^24 + b*2^16 + c*2^8 + d` for byte-valued a, b, c, d |
| Address.IpToValOfDecimals | pox/pox/ext/f10_controller.py:16-23 | on the '.'-join of the decimals of any numbers, `ip_to_val` returns their or-fold |
| Address.IpToValInetNtoa | topology.py:53 | `ip_to_val` inverts the builders' `inet_ntoa(struct.pack('!L', v))` for every 32-bit v |
| Address.QuadOfBytes | topology.py:53 | the dotted quad of v's four big-endian bytes reads back as v |
| Address.ByteSplit | topology.py:53 | `struct.pack('!L', v)`: v below 2^32 is the base-256 number of its four bytes, the first below 256 |
| Bits.BitOrDisjoint | topology.py:53 | `c << s \| a` is `c * 2^s + a` when a fits in s bits, in either operand order |
| Bits.BitOrBound | topology.py:76 | or-ing two values below `2^n` stays below `2^n` |
| Bits.BitOrScaled | topology.py:76 | shifting both operands by s commutes with `\|` |
| Fabric.GroupBase | topology.py:74-75 | `m * p` for the group containing offset r starts at or below r and spans p numbers |
| Fabric.SwitchIps | topology.py:60-77 | `switch_to_ip` has an entry for exactly the switch numbers below `total_switches` |
| Fabric.HostIpsAt | topology.py:51-55 | host `loc * nsps + c` of every location the bit width allows has the address packed from loc and `c + 1` |
| Fabric.HostIpsEntry | topology.py:51-55 | each host number below `2^location_bit_length * nsps` is in `host_to_ip`, at the location and count it splits into |
| Fabric.HostAddrFields | topology.py:53 | while `c + 1 < 1024`, host c's address has location loc, and `c + 1` split into level `(c + 1) / 256` and index `(c + 1) % 256` |
| Fabric.HostAddrIsPack | topology.py:53 | the host address is the packed address with location loc, level 0, index `c + 1` |
| Fabric.TopAddrIsPack | topology.py:68 | the top-switch address is the packed address with location 0, level 2, index j |
| Fabric.L1LinkIsEdge | topology.py:92-96 | every uplink a level-1 switch creates satisfies the A/B (or fat-tree) wiring rule |
| Fabric.InLevel1 | topology.py:92-96 | an edge is among the level-1 uplinks exactly when it satisfies the wiring rule of its variant |
| Fabric.InLevel0 | topology.py:80-91 | for either builder, an edge is among the level-0 edges exactly when it is a host edge or one of the p uplinks that builder wires from the level-0 switch |
| Fabric.LinksCharacterised | topology.py:80-103 | for either builder, its edges are exactly the host edges, its own level-0 uplinks and the level-1 uplinks |
| Network.Neighbors | pox/pox/ext/f10_controller.py:120-127 | `get_neighbor_ip_map` lists exactly the nodes adjacent to the switch, with their addresses |
| Ports.Step | topology.py:99-103 | one edge adds exactly its two `outport_mappings` keys and leaves the number of counters alone |
| Ports.TakeKeepsPortsOk | topology.py:100-102 | giving the current counter to a new neighbour, then decrementing it, keeps the port invariant |
| Ports.StepKeepsPortsOk | topology.py:84-103 | one edge keeps the invariant: switch ports at most k and above the current counter, pairwise distinct per switch, host ports 1 |
| Ports.AssignKeepsPortsOk | topology.py:80-103 | the invariant holds after any sequence of edges whose switches have counters |
| Ports.AssignRecordsEveryEdge | topology.py:84-101 | after the edge loop, both directions of every edge have a port, and no earlier key is lost |
| Topology.LinksWithinSwitches | topology.py:80-103 | every switch number an edge touches is below `total_switches`, so indexing `open_ports` never raises IndexError |
| Topology.AssignedTable | topology.py:46-103 | the port table after all edges satisfies the invariant and covers both directions of every edge |
| Topology.GenerateTopology | topology.py:24-104 | `switch_to_ip` covers exactly the switches; every edge has ports both ways; switch ports pairwise distinct per switch and at most k; host ports are 1 |
| Topology.FatTreeTopology | fat_tree_topology.py:26-86 | the plain fat tree, with its level-0 uplinks as written, numbers exactly `total_switches` switches, and every edge's switch numbers are among them |
| Topology.TopSwitchAddress | topology.py:65-69 | top switch j has level 2, location 0 and index j |
| Topology.Level1SwitchAddress | topology.py:72-77 | switch j of level-1 group m has level 1, location `m * p` and index j |
| Topology.Level1Entry | topology.py:74-77 | switch `nspl + base + j` of the group starting at base has the address packed from base, 1 and j |
| Topology.GroupSwitchAddress | topology.py:72-77 | each of the p switches of the level-1 group above level-0 switch m has level 1 and location `(m / p) * p` |
| Topology.Level0SwitchAddress | topology.py:72-77 | level-0 switch m has level 0, location m and index 0 |
| Topology.LayerFitsLocationBits | topology.py:39-41 | the host loop over `2^location_bit_length` locations reaches every level-0 switch |
| Topology.HostIpEntry | topology.py:51-55 | host `m * nsps + c` of level-0 switch m is in `host_to_ip` with the address packed from m and `c + 1` |
| Topology.HostAddress | topology.py:51-84 | host `m * nsps + c` is wired to level-0 switch m, and its address has the location of its switch, level `(c + 1) / 256` and index `(c + 1) % 256`; it has level 0 and index `c + 1` exactly when c < 255 |
| Topology.HostWired | topology.py:80-84 | level-0 switch m is wired to each host `m * nsps + c` with c below nsps |
| Topology.L0UplinksIntoGroup | topology.py:89-91 | in the AB tree, level-0 switch m is wired to exactly the p switches of level-1 group `m / p` |
| Topology.FatTreeL0Uplinks | fat_tree_topology.py:78-85 | in the plain fat tree as written, level-0 switch m is wired to exactly the p consecutive switches from `nspl + 2 * (m / 2)` |
| Topology.FatTreeUplinkReachesTop | fat_tree_topology.py:80 | for k = 6 the uplink as written from level-0 switch 17 reaches switch 36, a top-level switch |
| Topology.L0UplinkLocation | topology.py:89-91 | in the AB tree, every switch above level-0 switch m has level 1 and location `(m / p) * p` |
| Topology.ABWiring | topology.py:92-96 | top switch t is wired to switch j of group m exactly when j is `t / p` (even m) or `t % p` (odd m) |
| Topology.ATopWiring | topology.py:93-94 | an A group's switch j is wired to exactly the top switches `j * p + n` |
| Topology.BTopWiring | topology.py:95-96 | a B group's switch j is wired to exactly the top switches `n * p + j` |
| Topology.ABCommonTop | topology.py:92-96 | switch j of an A group and switch j' of a B group are both wired to top switch t exactly when t is in row j and column j' of the p-by-p block |
| Topology.RowAndColumn | topology.py:94-96 | the top switch in row j and column j' of the p-by-p block is `j * p + j'` and no other |
| Topology.FatTreeWiring | fat_tree_topology.py:81-82 | in the plain fat tree every level-1 group uses the A layout |
| Topology.FatTreeUplinkAsWrittenLeavesGroup | fat_tree_topology.py:80 | for k = 8 the fat-tree builder wires level-0 switch 2 to switch 36, in level-1 group 1 though switch 2 is in group 0; the AB-tree rule wires it to 34 and not to 36 |
| Topology.FatTreeUplinkAsWrittenAgreesWhenPIsTwo | fat_tree_topology.py:80 | for p = 2 (k = 4) the fat-tree uplink as written coincides with the AB-tree one |
| Routing.LastWithAddr | pox/pox/ext/f10_controller.py:239-242 | the host loop leaves `dsthost` at the last node with the destination address, or unset when none has it |
| Routing.DeliverToHost | pox/pox/ext/f10_controller.py:238-246 | at level 0 the packet leaves by the port towards a node with the destination address; NameError when there is none |
| Routing.DeliverToUniqueHost | pox/pox/ext/f10_controller.py:239-244 | when exactly one node has the destination address, the port is the one towards that node |
| Routing.DownValid | pox/pox/ext/f10_controller.py:256-257 | the down candidates are exactly the neighbours whose location prefix one level down matches the destination's |
| Routing.Upper | pox/pox/ext/f10_controller.py:299 | the up candidates are exactly the neighbours one level up |
| Routing.Candidates | pox/pox/ext/f10_controller.py:256-299 | every candidate, down or up, is a neighbour |
| Routing.Choices | pox/pox/ext/f10_controller.py:276-278 | the final list holds only neighbours with a known port |
| Routing.PickDown | pox/pox/ext/f10_controller.py:280-291 | going down sends one packet to an acceptable neighbour, or none exactly when no neighbour is acceptable |
| Routing.PickUp | pox/pox/ext/f10_controller.py:313-322 | going up crashes on an empty list, spins when nothing is acceptable, else picks among exactly the acceptable ports |
| Routing.F10Route | pox/pox/ext/f10_controller.py:236-326 | the F10 decision: each outcome arises only in its branch; going down at level 0 delivers to the host; going down above level 0 is silent exactly when no downward choice is acceptable, and otherwise sends to one acceptable choice; a single port is used only going down; going up it crashes exactly when there is no choice, spins exactly when no choice is acceptable, and otherwise may use exactly the acceptable choices' ports; above level 0 every port sent to avoids the ingress port and the invalid ports (level-0 delivery does not check the ingress port) |
| Routing.CandidatesAgree | pox/pox/ext/f10_controller.py:233-257 | the direction and the candidate list depend on the switch's name and address only |
| Routing.SameView | pox/pox/ext/f10_controller.py:259-266 | changing only the pre-dead list changes neither direction, invalid ports nor choices |
| Routing.PreDeadIsOnlyStatistics | pox/pox/ext/f10_controller.py:259-266 | the routing decision is the same whatever the pre-dead list holds |
| Routing.FallbackIffAllDead | pox/pox/ext/f10_controller.py:258-278 | with no pushback record matching, the fallback to all neighbours happens exactly when every candidate is dead |
| Routing.F10DownTowardDest | pox/pox/ext/f10_controller.py:248-291 | without the fallback, a packet sent down goes to a neighbour whose prefix matches the destination's |
| Routing.F10UpGoesUp | pox/pox/ext/f10_controller.py:294-326 | without the fallback, every port the switch may pick going up leads one level up |
| Routing.UpChoiceIsUpper | pox/pox/ext/f10_controller.py:299-315 | without the fallback, every up choice is a neighbour one level up |
| Routing.JellyDecide | pox/pox/ext/jelly_controller.py:96-134 | the failure-free decision, with or without a top-level override: going down at level 0 delivers to the host; going up, at any level, it crashes exactly when no neighbour is one level up and otherwise may use exactly the upper ports; a single port is used only going down, and above level 0 it is towards a neighbour whose prefix matches; going down above level 0 it is silent exactly when no neighbour matches |
| Routing.JellyRouteAsWritten | pox/pox/ext/jelly_controller.py:96 | as written, a top switch whose prefix differs from the destination's routes up to nobody and crashes |
| Routing.NothingAboveTop | pox/pox/ext/jelly_controller.py:124-131 | a top switch has no neighbour one level up |
| Routing.JellyRoute | pox/pox/ext/jelly_controller.py:96 | with the top-level override, a top switch always sends down to a matching neighbour or stays silent |
| Routing.JellyTopSwitchCrashExample | pox/pox/ext/jelly_controller.py:96 | for k = 4, top switch 16 and host 4 (location 4) have different prefixes at level 2 |
| Routing.F10UpWithoutFailures | pox/pox/ext/f10_controller.py:294-326 | with no dead switches and no pushback records, F10 picks among the upper ports other than the ingress one, as the failure-free controller does |
| Routing.PickUpWithoutInvalid | pox/pox/ext/f10_controller.py:317-322 | with no invalid port, the retry loop picks among the upper ports minus the ingress port, and spins when none is left |
| Routing.NothingInvalid | pox/pox/ext/f10_controller.py:300-315 | with no dead switches and no records, nothing is invalid and the up list is not replaced |
| Pushback.Targets | pox/pox/ext/f10_controller.py:60-78 | the flood targets are exactly the registered switches that are valid neighbours, when the level and stack gate opens |
| Pushback.TargetsAvoidSenderAndDead | pox/pox/ext/f10_controller.py:62-71 | a target is never the sender or dead; it is only reached at or above the failed level through an open gate; it is a lower neighbour when the prefixes differ |
| Pushback.HandlePushbackInstalls | pox/pox/ext/f10_controller.py:76-88 | for a fresh id the switch records the id, and installs the message's sender, prefix, level and stack under the prefix exactly when it forwarded to nobody, keeping its records otherwise |
| Pushback.StackOpensGate | pox/pox/ext/f10_controller.py:71 | the tag a failure at level fl with prefix fp carries (lines 196-202) lets a switch forward exactly when it is a top switch, or the failure was below the top and the prefixes have equal parity |
| Pushback.HandlePushback | pox/pox/ext/f10_controller.py:48-88 | a replayed id changes nothing; a fresh id leaves the target as the handler body does; every switch gains the id at most once and at most one record for the failed prefix, and nothing else changes |
| Pushback.Flood | pox/pox/ext/f10_controller.py:74-78 | after forwarding, every target has seen the id, and states change only by the flood's steps |
| Pushback.EvolvesTrans | pox/pox/ext/f10_controller.py:50-54 | the "only adds this id and this record" relation between switch states is transitive |
| Pushback.FloodStepTrans | pox/pox/ext/f10_controller.py:74-78 | the world-level flood relation is transitive |
| Pushback.PreUpdate | pox/pox/ext/f10_controller.py:174-176 | `pre_update_down_switches` appends the dead name at the end of the pre-dead list and changes nothing else |
| Pushback.RemoveFirst | pox/pox/ext/f10_controller.py:183 | `list.remove` drops the first occurrence, and fails exactly when the element is absent |
| Pushback.UpdateDownSwitches | pox/pox/ext/f10_controller.py:179-206 | the name moves to the dead list; ValueError exactly when it was not pre-dead; KeyError when unknown; pushback starts only towards a lower neighbour, with the shifted prefix |
| Pushback.PendingCalls | pox/pox/ext/f10_controller.py:204-206 | a delayed pushback call is made exactly when the dead switch is a lower neighbour |
| Pushback.UpdateAfterPreUpdate | pox/pox/ext/f10_controller.py:174-183 | after the pre-update, the update cannot raise ValueError and restores the pre-dead list up to order |
| Pushback.ConnectionDown | pox/pox/ext/f10_controller.py:160-171 | each switch's pre-dead list grows by one dead name per registration and nothing else changes |
| Pushback.ConnectionDownKeepsRouting | pox/pox/ext/f10_controller.py:160-171 | a connection-down event alone changes no switch's routing decision |
| Emulation.MacDigits | pox/pox/ext/build_topology.py:25 | `'%0.12x'` prints twelve digits exactly when v is below 2^48, and otherwise the fewest digits that hold v |
| Emulation.MacFromValue | pox/pox/ext/build_topology.py:24-25 | `mac_from_value` succeeds exactly when the hex text has an even digit count |
| Emulation.MacRoundTrip | pox/pox/ext/build_topology.py:24-25 | parsing the ':'-separated hex pairs back gives v |
| Emulation.MacInjective | pox/pox/ext/build_topology.py:24-25 | two values with the same MAC are equal |
| Emulation.MacFormat | pox/pox/ext/build_topology.py:24-25 | below 2^48 the MAC is 17 characters: six two-digit hex groups |
| Emulation.MacOutOfRange | pox/pox/ext/build_topology.py:24-25 | `16^n` for even n >= 12 (2^48 first) has an odd digit count and is rejected |
| Emulation.OddWidthRejected | pox/pox/ext/build_topology.py:25 | a value needing an odd number (over 12) of hex digits has no MAC |
| Emulation.Hex02 | pox/pox/ext/build_topology.py:49 | `"{:02x}"` gives hex text denoting v: two digits exactly when v < 256, and otherwise the fewest digits that hold v |
| Emulation.SwitchMacAsWrittenAgrees | pox/pox/ext/build_topology.py:49 | below 255 switches the switch MAC as written equals `mac_from_value(s + 1)` |
| Emulation.SwitchMacAsWrittenMalformed | pox/pox/ext/build_topology.py:49 | for k = 16 (320 switches), switch 255 gets "00:00:00:00:00:100", which is no MAC; `mac_from_value(256)` is one |
| Emulation.MacsDiffer | pox/pox/ext/build_topology.py:24-25 | two different values below 2^48 get two different MACs |
| Emulation.MacsDistinct | pox/pox/ext/build_topology.py:185-189 | with the corrected switch MAC `mac_from_value(s + 1)` (not line 49 as written), switch MACs differ from host MACs, and hosts' MACs differ from each other |
| Emulation.ArpEntries | pox/pox/ext/build_topology.py:190-194 | host i gets one ARP entry per other host, and the loop succeeds exactly when each other host has an address |
| Emulation.ArpEntriesMatchHostMacs | pox/pox/ext/build_topology.py:185-194 | host i's entry for host j holds j's address and exactly the MAC host j was given |
| Emulation.ParseGraphName | pox/pox/ext/build_topology.py:53-63 | the number of a graph name reads back |
| Emulation.EndpointOfNode | pox/pox/ext/build_topology.py:52-64 | each edge end becomes its Mininet node (switch s is `s+1`), and the recovered graph name is the original one |
| Emulation.BuildLinkOfEdge | pox/pox/ext/build_topology.py:51-69 | a link gets the Mininet names of its ends and the `outport_mappings` ports of both directions |
| Emulation.EdgeEndsExist | pox/pox/ext/build_topology.py:53-63 | every edge end indexes the host and switch lists without an IndexError |
| Emulation.BuildLinksOfTopology | pox/pox/ext/build_topology.py:51-69 | every edge of the built AB tree, in either orientation, becomes a link with both ports of its endpoints |
| PartialBuilder.HostIpTextIsQuad | topology_f10.py:31 | `'10.6.' + str(s) + '.1'` is the dotted quad of 10, 6, s, 1 |
| PartialBuilder.HostIpTextValue | topology_f10.py:30-31 | for s below 256, host s's address reads as `10*2^24 + 6*2^16 + s*2^8 + 1` |
| PartialBuilder.GroupsFillLayer | topology_f10.py:45-46 | the groups of every level exactly fill a layer |
| PartialBuilder.SwitchNumberInBlock | topology_f10.py:44-58 | the switch numbers of level i lie in the i-th block of nspl numbers, the top level in the last half block |
| PartialBuilder.SwitchNumberInjective | topology_f10.py:55-57 | within a level, group and index are recovered from the switch number |
| PartialBuilder.NumberingAgreesWithFabric | topology_f10.py:37-57 | at depth 2 the numbering gives the same total and the same level of every switch as topology.py |
| PartialBuilder.Level0Numbering | topology_f10.py:55-57 | level-0 switch numbers are the group numbers |
| PartialBuilder.HostPlace | topology_f10.py:63 | host `m * nsps + n` belongs to switch m, slot n |
| PartialBuilder.NumberLevel | topology_f10.py:55-58 | numbering one level adds exactly the next block of switch numbers |
| PartialBuilder.NumberTop | topology_f10.py:47-50 | numbering the top adds exactly the next count of switch numbers |
| PartialBuilder.NumberSwitches | topology_f10.py:44-58 | the switches added are exactly the numbers below `total_switches` |
| PartialBuilder.AttachHosts | topology_f10.py:59-68 | one level-0 switch gets edges to its hosts, switch port `k - 1 - slot` and host port 1, then its counter is reset to p |
| PartialBuilder.WireLevel0 | topology_f10.py:55-68 | all level-0 switches get their host edges and ports, and every counter ends at p |
| PartialBuilder.GeneratePartial | topology_f10.py:21-73 | fails exactly on a zero layer size (ZeroDivisionError); otherwise host ips, switches, host edges and ports as built |
| PartialBuilder.DepthTwoSizes | topology_f10.py:37-40 | at depth 2 the layer size and hosts per switch equal those of topology.py |
| PartialBuilder.BuiltLinksAreHostEdges | topology_f10.py:44-73 | at depth 2 the only edges are exactly the host edges of topology.py, and every host end has an ip |
| PartialBuilder.BuiltPortsDistinct | topology_f10.py:60-66 | switch ports are pairwise distinct per switch and lie between `k - nsps` and `k - 1` |
| Text.SplitJoin | pox/pox/ext/f10_controller.py:17 | splitting a '.'-join of pieces without '.' gives the pieces back |
| Text.ParseNatToString | pox/pox/ext/f10_controller.py:21 | `int(str(n)) == n` |
| Text.NatToString | topology_f10.py:31 | `str(n)` is a non-empty digit string with no leading zero |
| Text.ParseNat | pox/pox/ext/f10_controller.py:21 | `int(s)` succeeds exactly on non-empty digit strings |
| Text.HexFixedValue | pox/pox/ext/build_topology.py:25 | fixed-width hex text of a value that fits reads back as the value |
| Text.HexDigitCountFits | pox/pox/ext/build_topology.py:25 | v needs at most n hex digits exactly when v is below 16^n |

## Left out

- OpenFlow and POX plumbing (`resend_packet`, listeners, `launch`, pickle loading, logging), networkx, Mininet start-up and the experiment driver, and the Go MapReduce code are not modelled: they are I/O, concurrency or foreign code.
- `core.callDelayed` timing is not modelled. `update_down_switches` returns the pushback calls it would schedule (`PbCall`), and `_handle_ConnectionDown` runs only `pre_update_down_switches`, as the source does: its `update_down_switches` call is commented out.
- The `SwitchList` registry is an explicit sequence of switch names in registration order, and the switches are a map from name to state. The source never removes an entry, so a switch that reconnects is registered again as a second `TopoSwitch` object with its own lists; the model keeps one state per name, which then receives `Count(reg, n)` pre-dead entries where each source object receives one.
- Dictionary iteration order is not modelled. `Net.nodes` is a fixed node order; neighbour lists, pushback targets and `pb_messages` follow it, and `random.choice` is a set of possible ports.
- `math.ceil(math.log(n, 2))` is the integer `CeilLog2`. Float rounding of `math.log` for large powers of two is left out.
- Topology.GenerateTopology (`requires k >= 2`) and the routing and pushback members (`requires net.nPorts >= 2`): with `p = 0`, `math.log(0, 2)` raises ValueError (topology.py:38, f10_controller.py:232); that error path is not modelled.
- The builders are modelled for `L = 2` only, as topology.py's own comment restricts them, except topology_f10.py, whose depth is a parameter.
- Topology.HostAddress: stated for `c + 1 < 1024`. From 1023 hosts per switch on, `c + 1` carries into the location field, and those addresses are not described.
- Topology.TopSwitchAddress, Topology.Level1SwitchAddress, Topology.Level0SwitchAddress, Topology.GroupSwitchAddress, Topology.HostAddress and Topology.L0UplinkLocation: proved only when every switch's fields fit their widths (`AddressesFit`: at most 2^14 switches per layer and `p*p <= 256`, i.e. k <= 32). For larger k the source's `|` silently mixes fields, and that corruption is not modelled.
- Topology.GenerateTopology, Topology.FatTreeTopology, Fabric.HostIps and Fabric.SwitchIps: `struct.pack('!L', ...)` raises `struct.error` once an address reaches 2^32 (a location of 2^22 or more, which only very large k reach); the model does not model that exception and returns the unbounded address instead.
- Routing.F10Route, Routing.JellyDecide and Pushback.ConnectionDownKeepsRouting: a KeyError from `outport_mappings` is excluded by the precondition `PortsKnown`, whose first clause the builders' port table meets for every edge (Topology.GenerateTopology). Its second clause, that every pushback record's sender has a port, holds in the source because every recorded sender is a neighbour (the forwarding switch, f10_controller.py:72-78, or the dead lower neighbour, 204-206); the model does not prove that the handlers keep this.
- Routing.DeliverToHost: the node with the destination address is searched in node order; which node wins when two share an address depends on networkx's order and is only stated as "some node with that address" (Routing.LastWithAddr gives the exact rule for a fixed order).
- Pushback.UpdateDownSwitches: a KeyError from `switch_to_ip` leaves the state as far as the handler got (dead appended, pre-dead removed) and no calls; later exceptions from a missing port are excluded as above.
- Text.ParseNat: `int()` accepts only digit strings here; a sign and surrounding whitespace, which Python 2's `int()` also accepts, are not modelled.
- PartialBuilder.GeneratePartial: topology_f10.py's `generate_topology` has no `return` statement, so its caller receives `None`; the model returns the state it builds, to state what the loops do.
- `switch_to_ip` is keyed by the name `'s' + str(n)` in the source and by n in the model; the translation is Emulation.GraphName.
- The ips `F10Top.build` gives Mininet hosts and switches (build_topology.py:34-49) are not modelled. Each is found by scanning the graph's nodes for the name `'h' + str(h)` or `'s' + str(s)`. When no node has that name (for instance when `n_hosts` exceeds the hosts the builder created because `n_servers` is not a multiple of `2p²`), the loop ends on the last node scanned and the node silently gets that node's ip.
- Emulation.ArpEntries: the entries are listed in the order `main` sets them; `setARP` itself is Mininet I/O and is not modelled.
- `main.py` and `main_f10.py` (drivers), `graph6.py`, `parse.py` and the C traffic generator are not part of this model.

## Findings

| source | as written | input that shows it | evidently intended | confidence | as-written member | corrected member |
|---|---|---|---|---|---|---|
| pox/pox/ext/jelly_controller.py:96 | routes down only when `sw_prefix == dest_prefix`; a top switch otherwise routes "up" with an empty candidate list, so `random.choice([])` raises IndexError | k = 4: top switch 16 (location 0) and a packet for host 4 (location 4); at level 2 the prefixes are 0 and 1 | route down at level 2 as the F10 controller does (`or lvl == 2`, f10_controller.py:236) | high, not executed | Routing.JellyRouteAsWritten, Routing.JellyTopSwitchCrashExample | Routing.JellyRoute |
| fat_tree_topology.py:80 | the level-0 uplink is `(m/2 + n) + (nspl + m/2)` | k = 8 (p = 4, nspl = 32), level-0 switch m = 2, n = 2: gives switch 36, which is outside level-1 group 0 (32..35) | `(m/p)*p + nspl + n`, as topology.py:91 wires it | high, not executed | Topology.FatTreeL0Uplinks, Topology.FatTreeUplinkAsWrittenLeavesGroup, Topology.FatTreeUplinkAsWrittenAgreesWhenPIsTwo | Topology.L0UplinksIntoGroup |
| pox/pox/ext/build_topology.py:49 | switch MAC `"00:00:00:00:00:" + "{:02x}".format(s + 1)` | k = 16 (320 switches), switch 255: `s + 1 = 256` gives "00:00:00:00:00:100" | `mac_from_value(s + 1)`, the formatter used for hosts | medium, not executed | Emulation.SwitchMacAsWrittenMalformed, Emulation.SwitchMacAsWrittenAgrees | Emulation.MacsDistinct |
