# Ryu SDN controller apps, modelled in Dafny

This project models eight Ryu OpenFlow 1.3 controller apps that share one core:

- **A2/q1.py**: single-table drop-or-route, with mirroring on the packet-in switch.
- **A2/q2.py** and **A2/q3.py**: two-table routing along the interior of the shortest path, plus a table-0 parity drop.
- **A2/q3test.py**: a path-end parity variant whose last hop appends to its action list in place.
- **T2P2/multi-table-odd-even.py**: the table is chosen by the parity of the TCP destination port.
- **T2P2/stats.py**: one-hop forwarding, plus flow-statistics polling.
- **T2P2/group-table.py**: a fast-failover group.
- **T2/topo-discovery.py**: topology discovery only.

The apps are modelled once, as the class `ControllerApp.Controller`. Its constant `app` selects the variant.

Its state is the apps' own state:

- **`net`**: the networkx `DiGraph` `self.net`, as a map from node to successor to optional `port`. A node is a switch (dpid) or a host (MAC).
- **`switches`**: the keys of `self.switches`.
- **`datapaths`**: the keys of `self.datapaths`, in insertion order.
- **`tables`**: the switch-side flow tables that the sent flow-mods build. Installing follows OFPFC_ADD replace semantics (section 6.4 of the OpenFlow Switch Specification 1.3). A flow-mod that applies a group its switch does not hold is refused with OFPBAC_BAD_OUT_GROUP and changes nothing (same section). The group-table app sends its flow-mod before the group it names, so on a fresh switch its first packet installs only the group (`ControllerApp.GroupFlowTakesTwoPackets`).
- **`groups`**: the group tables. OFPGC_ADD of an existing id is refused.

Each event handler is a method: `OnSwitchEnter`, `OnSwitchFeatures`, `OnStateChange`, `OnPacketIn` and `MonitorTick`.

The rules a packet-in produces are a value, `Emission(flows, groups, fault)`. A Python exception raised part-way through a handler is the `fault`. The flow-mods sent before the exception are kept, because they were already sent.

The project is split into modules:

- **`Topology`**: the graph updates and the graph invariant `GraphValid`.
- **`Paths`**: the breadth-first shortest path that stands for `nx.shortest_path`, which is proved shortest, and the interior `[1:-1]`.
- **`Policy`**: the admission predicates, exactly as written.
- **`OpenFlow`**: flow-mods, switch tables and the pipeline lookup of sections 5.1, 5.3 and 5.4 of the specification. The lookup picks the single matching entry of highest priority and is `Ambiguous` on a tie.
- **`Compilers`**: the per-hop loops of q1, q2/q3 and q3test.
- **`OneHop`**: the defaults and the T2P2 rule builders.
- **`Monitor`**: the registry, the monitor ticks and the reply filter.
- **`Pipeline`**: what installed rules do to packets.
- **`ControllerApp`**: the class and the end-to-end lemmas.

The drop condition `not((src_id%2 and dst_id%2) or not(src_id%2 or dst_id%2))` holds when the two attachment switches' parities **differ** (`Policy.Blocked`). The model follows the code here. A description stating that same-parity pairs are blocked disagrees with the code.

The A2 apps record the switch→host edge with the constant `ofproto.OFPXMT_OFB_IN_PHY_PORT`, which is 1 in Ryu's OpenFlow 1.3 module. They do not use the packet's `in_port`. The T2 and T2P2 apps use `in_port` (`ControllerApp.AttachPort`).

## Model

| member | source | states |
|---|---|---|
| Topology.AddSwitches | T2/topo-discovery.py:29-31 | every discovered switch id becomes a node; no edge changes |
| Topology.AddEdge | A2/q2.py:37-38 | `add_edge` adds both endpoints; given a port it sets the edge's port, and without one it keeps an existing port; no other edge changes |
| Topology.AddLinksEdges | A2/q2.py:34-38 | after the link loop, each edge a link wrote carries the port of the last link that wrote it in that direction, every other edge is unchanged, and the new nodes are the links' switches |
| Topology.LastLinkEdges | T2/topo-discovery.py:33-37 | a link between two switches yields src→dst with `link.src.port_no` and dst→src with `link.dst.port_no` |
| Topology.EveryLinkEdges | T2P2/stats.py:70-74 | for a port-consistent link list, every link's two directed edges carry their own direction's port |
| Topology.AddLinksIdempotent | A2/q1.py:36-38 | repeating the same link list leaves the graph unchanged |
| Topology.AddLinksOrderFree | A2/q3.py:51-53 | for a port-consistent link list, the resulting graph does not depend on the order or repetition of links |
| Topology.ObserveHostEffect | A2/q2.py:84-87 | a known source leaves the graph unchanged; an unseen one gains exactly the edge switch→host with the port and the edge host→switch with none, and nothing else changes |
| Topology.ObserveHostSteps | T2/topo-discovery.py:69-72 | the first sighting is exactly `add_node`, `add_edge(dpid, src, port)`, `add_edge(src, dpid)` |
| Topology.ObserveHostValid | A2/q3test.py:98-101 | a first sighting keeps the graph invariant: edge ends are nodes, every switch edge has a port, and a host's only neighbour is its switch |
| Topology.AddLinksValid | A2/q3test.py:57-59 | the link loop keeps the graph invariant |
| Topology.AddSwitchesValid | A2/q3test.py:51-53 | adding switch nodes keeps the graph invariant |
| Topology.HostNeighbours | A2/q2.py:89-90 | in a valid graph, a host reached from u has u as its only successor, and u is a switch |
| Topology.Attachment | A2/q2.py:89-90 | `list(self.net[h].keys())[0]` is the one switch the host is attached to, and that switch has an edge to the host |
| Paths.ShortestPath | A2/q2.py:97-98 | `has_path` then `shortest_path`: when it returns a path, the path starts at src, ends at dst, follows edges and no path is shorter; when it returns none, no path exists |
| Paths.Layers | A2/q3test.py:115 | the breadth-first layer count stops at dst's distance, or at a closed reachable set that does not contain dst |
| Paths.WalkBack | A2/q3test.py:115 | from the layers, a path of exactly that length is rebuilt from src to dst |
| Paths.ShortestPathSimple | A2/q2.py:105-106 | a shortest path repeats no node, so `path.index(switch_id)` is the loop position |
| Paths.InteriorSwitches | A2/q2.py:98 | the interior `[1:-1]` of a shortest path in a valid graph holds only switches |
| Paths.HostPathShape | A2/q3test.py:115-118 | a shortest host-to-host path is the host alone when src = dst; otherwise it has at least 3 nodes and its second and next-to-last nodes are the two attachment switches |
| Policy.Blocked | A2/q2.py:120 | the drop condition as written holds exactly when the two ids differ in parity |
| Policy.BlockedSymmetric | A2/q3.py:115 | the drop decision is symmetric in src and dst |
| Policy.EndsSumEven | A2/q3test.py:127 | the q3test test raises on an empty interior or a non-switch end; otherwise it is even exactly when both ends have the same parity |
| Policy.EndsSumEvenIsNotBlocked | A2/q3test.py:127 | between distinct hosts, q3test's path-end test is exactly the negation of the q1/q2/q3 drop condition |
| OpenFlow.InstallFlow | A2/q2.py:127-138 | OFPFC_ADD writes the entry under (table, priority, match) on its switch and changes no other entry |
| OpenFlow.InstallFlowsEntries | A2/q3.py:122-133 | after a batch, every entry is the last write for its key, or what was there before when the batch does not write that key |
| OpenFlow.InstallFlowsIdempotent | A2/q2.py:105-125 | re-sending the same flow-mods leaves the tables unchanged |
| OpenFlow.InstallFlowsAppend | A2/q3.py:103-120 | sending a + b is sending a, then b |
| OpenFlow.AdmitFlow | T2P2/group-table.py:86-88 | a flow-mod that applies a group its switch does not hold is refused and changes nothing; any other is added by OFPFC_ADD and changes only its own entry |
| OpenFlow.AdmitFlowsNoMissingGroup | T2P2/group-table.py:117-128 | flow-mods that name no missing group are all added, exactly as OFPFC_ADD alone adds them |
| OpenFlow.InstallGroup | T2P2/group-table.py:108-114 | OFPGC_ADD creates the group when its id is free, and otherwise leaves the switch's groups unchanged; other switches are untouched |
| OpenFlow.ProcessSelected | A2/q2.py:54-58 | the unique highest-priority matching entry decides: Apply executes its actions, and Goto continues at the later table |
| Compilers.Q2RouteInterior | A2/q2.py:105-115 | the `for switch_id in path` loop sends, pass by pass, each hop's rule until a lookup raises |
| Compilers.Q2HopOnShortestPath | A2/q3.py:103-113 | on a shortest path, a registered interior switch gets a table-1, priority-1 (src, dst) rule outputting on the edge toward the next interior switch, or toward dst for the last |
| Compilers.Q2RoutesOnShortestPath | A2/q2.py:97-115 | with all interior switches registered, routing raises nothing and sends exactly one such rule per interior switch, in path order |
| Compilers.Q2RoutesStopAtUnregistered | A2/q2.py:109 | an interior switch missing from `self.switches` raises KeyError there, after the earlier hops' rules were sent |
| Compilers.Q2RouteRulesInTableOne | A2/q3.py:104-113 | every route rule is a table-1, priority-1, (src, dst) Apply rule whose actions are all outputs |
| Compilers.Q2DropIffBlocked | A2/q2.py:118-125 | if routing raised nothing, the routes come first and the table-0 priority-1 drop follows exactly when the attachment parities differ |
| Compilers.Q2UnknownDestination | A2/q2.py:88 | no rule is compiled when dst is not a node |
| Compilers.Q3TestRouteInterior | A2/q3test.py:126-145 | the manual-index loop sends, pass by pass, each hop's rule until a pass raises |
| Compilers.Q3TestRouteRulesInTableOne | A2/q3test.py:128-143 | every q3test forwarding rule is a table-1, priority-1, (src, dst) Apply rule whose actions are all outputs |
| Compilers.Q3TestActions | A2/q3test.py:134-140 | a pass's action list, when it is bound, is non-empty and holds only outputs |
| Compilers.Q3TestSameHost | A2/q3test.py:118-127 | a packet to oneself has an empty interior, and `shortestPath[0]` raises before any rule is sent |
| Compilers.Q3TestBlocked | A2/q3test.py:149-153 | between distinct hosts whose attachment parities differ, only the table-0 priority-2 (src, dst) drop is sent |
| Compilers.Q3TestSingleSwitch | A2/q3test.py:139-143 | a one-switch interior raises on the unbound `actions` before any rule is sent |
| Compilers.Q3TestActionsBound | A2/q3test.py:133-140 | with the ports present, each non-last pass outputs toward the next switch, and the last pass's list is the previous list followed by output 1 |
| Compilers.Q3TestRunAllPasses | A2/q3test.py:129-145 | with every interior switch registered and every port present, each pass sends one table-1 rule with its action list, in order, and nothing raises |
| Compilers.Q3TestChainOfActions | A2/q3test.py:133-143 | one rule per pass carrying that pass's action list is exactly the forwarding chain |
| Compilers.Q3TestForwarding | A2/q3test.py:127-145 | between distinct same-parity hosts with a registered interior of at least two switches: no exception, and the chain outputs toward each next switch, the last rule repeating the previous output and adding output 1 |
| Compilers.Q1RouteAtSwitch | A2/q1.py:88-99 | the `enumerate(path)` loop sends, pass by pass, each position's rule until a pass raises |
| Compilers.Q1BlockedDropsOnly | A2/q1.py:79-84 | a pair whose parities differ gets only the priority-1 empty-action (src, dst) drop on the packet-in switch |
| Compilers.Q1OnShortestPath | A2/q1.py:85-99 | on a shortest path, nothing raises; only the packet-in switch, if it is on the path, gets one `eth_dst` priority-1 rule toward the next node, with output 1 added exactly at the attachment switches |
| OneHop.AddFlow | A2/q3test.py:187-199 | `add_flow` is one flow-mod on the given switch, table and priority, with the single instruction Apply(actions) |
| OneHop.AddFlowGoto | A2/q2.py:140-151 | `add_flow_goto` is one flow-mod with the single instruction Goto(dstTable) |
| OneHop.DefaultsAreTableMiss | A2/q2.py:49-67 | the connect defaults are priority-0 empty-match entries on the connecting switch: table 0 → Goto(1), table 1 → controller; the single-table default is table 0 → controller |
| OneHop.OddEvenRule | T2P2/multi-table-odd-even.py:109-126 | the rule exists exactly when edge dpid→dst has a port; it matches (eth_dst, IPv4, TCP, tcp_dst), outputs on that port at priority 1, and sits in table 0 exactly when the port is even |
| OneHop.OddEvenRules | T2P2/multi-table-odd-even.py:103 | nothing unless the packet is TCP to a known destination; then exactly the odd-even rule for its port, or the lookup's exception when the switch has no edge to the destination; never a group |
| OneHop.StatsRule | T2P2/stats.py:122-127 | the rule exists exactly when edge dpid→dst has a port, and is the priority-1 `eth_dst` rule outputting on it |
| OneHop.StatsRules | T2P2/stats.py:116 | nothing for an unknown destination; otherwise exactly the stats rule, or the lookup's exception when the switch has no edge to the destination; never a group |
| OneHop.OneHopAtAttachment | T2P2/stats.py:124 | in a valid graph, the one-hop lookup succeeds exactly on dst's attachment switch |
| OneHop.FailoverBucketsWatchOwnOutput | T2P2/group-table.py:94-101 | two ordered buckets, watching port 2 then port 3; each watches the port it outputs on and rewrites the destination before the output |
| OneHop.AddGroup | T2P2/group-table.py:108-113 | `add_group` is OFPGC_ADD of a fast-failover group with the given id and buckets |
| OneHop.GroupRules | T2P2/group-table.py:79-102 | for a known dst: one priority-1 `eth_dst` rule whose only action is group 1, then the group-1 fast-failover group-mod |
| OneHop.GroupInstalledOnce | T2P2/group-table.py:102 | every group the switches hold stays the failover group under id 1, and after the handler for a known destination the switch holds it, even when an earlier OFPGC_ADD was refused |
| Monitor.Register | A2/q3.py:34-37 | MAIN registers an absent id at the end and leaves a present one in place; ids stay distinct |
| Monitor.Unregister | A2/q3.py:38-41 | DEAD removes the id and keeps the other ids; ids stay distinct |
| Monitor.UnregisterConcat | A2/q3.py:41 | removing an id from two registries laid end to end removes it from each part, so the remaining ids keep their order |
| Monitor.UnregisterPresent | A2/q3.py:38-41 | deleting a present id from a registry of distinct ids leaves the ids before it followed by the ids after it |
| Monitor.StateChange | T2P2/stats.py:52-61 | MAIN adds the id, DEAD removes it, and nothing else changes membership |
| Monitor.UnregisterAbsent | A2/q3test.py:43-46 | removing an absent id changes nothing |
| Monitor.UnregisterAppended | A2/q3test.py:37-46 | removing the id just appended restores the registry |
| Monitor.ConnectDisconnectRoundTrip | T2P2/stats.py:52-61 | MAIN then DEAD for a new id gives back the registry it started from |
| Monitor.Q3Tick | A2/q3.py:149-161 | nothing while `self.switches` is empty; otherwise exactly one port-stats request, to switch 5, or a KeyError when 5 has not connected |
| Monitor.Q3TestTick | A2/q3test.py:203-220 | walking every connected switch sends one port-stats request to switch 5 if it is connected, and none otherwise |
| Monitor.StatsTick | T2P2/stats.py:154-170 | one flow-stats request per registered datapath, in registry order; each registered id gets exactly one and no other id gets any |
| Monitor.DisconnectedSkipped | T2P2/stats.py:156 | after a DEAD event, the gone switch gets no request and every other registered switch gets one |
| Monitor.PriorityOne | T2P2/stats.py:197-198 | the reported entries are exactly the reply entries of priority 1 |
| Monitor.PriorityOneAppend | T2P2/stats.py:197-198 | filtering is done entry by entry, in body order |
| Monitor.LineOf | T2P2/stats.py:199-203 | a priority-1 entry's line is built exactly when it matches on `eth_dst`, has a first instruction, and that instruction's first applied action is an output; the line carries that destination, port and the counters; a missing `eth_dst` raises KeyError first, then a missing instruction raises IndexError |
| Monitor.ReportOf | T2P2/stats.py:197-203 | at most one line per priority-1 entry; the loop ends without an exception exactly when every priority-1 entry is readable |
| Monitor.ReportAllReadable | T2P2/stats.py:197-203 | when every priority-1 entry is readable, one line per priority-1 entry is logged, in body order |
| Monitor.ReportStopsAt | T2P2/stats.py:197-203 | the loop stops at the first unreadable priority-1 entry with its exception, after the lines of the entries before it |
| Monitor.ReportFlows | T2P2/stats.py:195-203 | the reply loop logs the lines of the priority-1 entries in body order and stops at the first exception |
| Pipeline.DefaultsInstall | A2/q3.py:64-74 | on a switch with no entries, the defaults leave exactly the two miss entries (or the one single-table miss entry) |
| Pipeline.MissToController | A2/q2.py:54-67 | with only the defaults installed, every packet goes to the controller, through table 1 in the two-table apps |
| Pipeline.InstallAllKeepShape | A2/q2.py:118-125 | sending only table-1 rules, the goto default and (src, dst) drops keeps table 0 to those shapes |
| Pipeline.DropPreempts | A2/q2.py:120-125 | with the (src, dst) drop in table 0, a (src, dst) packet is dropped and never reaches table 1, whatever table 1 holds |
| Pipeline.AdmittedReachesTableOne | A2/q2.py:54-58 | without a drop for its pair, a packet leaves table 0 by the goto default and table 1 decides it |
| Pipeline.OddEvenTableInstall | T2P2/multi-table-odd-even.py:121-126 | the defaults form an odd-even switch table, and installing any odd-even rule keeps one |
| Pipeline.OddEvenDelivers | T2P2/multi-table-odd-even.py:121-126 | on any odd-even switch table (the defaults plus odd-even rules for any destinations and ports), the rule for (dst, port) forwards its packets, whether its port's parity put it in table 0 or table 1 |
| Pipeline.SingleTableTie | A2/q1.py:79-99 | the q1 drop and an `eth_dst` forward at priority 1 in one table tie, so the lookup is ambiguous and the drop is not guaranteed to win |
| ControllerApp.PacketRules | T2P2/stats.py:106-116 | per app: no rule for an unknown dst; the T2P2 apps send nothing on a first sighting; topo-discovery sends nothing, and raises KeyError when both hosts are known but the packet-in switch is not a node; only group-table sends group-mods |
| ControllerApp.Q1Compile | A2/q1.py:76-99 | q1's compile step produces the q1 rules for the path it was given |
| ControllerApp.Q2Compile | A2/q3.py:96-120 | q2/q3's compile step produces the routes followed by the conditional drop |
| ControllerApp.Q3TestCompile | A2/q3test.py:109-156 | q3test's compile step produces the path-end test followed by the routes or the drop |
| ControllerApp.CompilePacket | A2/q2.py:88-125 | the A2 apps work on a verified shortest path (or on none, exactly when no path exists), and the emitted rules are the app's compiled rules |
| ControllerApp.CompiledKeepsShape | A2/q3test.py:127-153 | every rule q2, q3 and q3test send is table-1 routing or the (src, dst) drop of the app's drop priority |
| ControllerApp.AddLinksLoop | A2/q3test.py:57-59 | the link loop's `add_edge` pairs build exactly the links' graph |
| ControllerApp.Observe | T2P2/multi-table-odd-even.py:90-93 | the three first-sighting calls give the first-sighting graph |
| ControllerApp.PacketRulesOutputsOnly | A2/q1.py:93-99 | every flow-mod of the apps other than group-table only outputs, so no switch refuses one for a missing group |
| ControllerApp.Q2RulesOutputOnly | A2/q2.py:105-125 | every q2/q3 flow-mod only outputs or drops |
| ControllerApp.PacketTablesAndGroups | T2P2/group-table.py:79-102 | the non-group apps' flow-mods are all added; the groups stay failover groups; group 1 is present after a group-table packet to a known destination |
| ControllerApp.GroupFlowTakesTwoPackets | T2P2/group-table.py:85-102 | the group-table flow-mod is sent before its group: on a switch without group 1 the first packet's flow-mod is refused while the group is added, and the next packet's flow-mod is accepted |
| ControllerApp.Controller.constructor | A2/q3.py:22-28 | an empty graph, empty dictionaries and empty switch tables |
| ControllerApp.Controller.Send | A2/q2.py:127-138 | a sent flow-mod is installed with OFPFC_ADD semantics unless it applies a missing group; the table-0 shape and the failover-only groups are kept |
| ControllerApp.Controller.SendAll | A2/q2.py:105-115 | the handler's flow-mods are admitted in order against the switches' groups |
| ControllerApp.Controller.SendGroups | T2P2/group-table.py:108-114 | the handler's group-mods are installed in order |
| ControllerApp.Controller.OnStateChange | A2/q3.py:30-41 | the registry apps apply MAIN/DEAD to `datapaths` and keep it duplicate-free; the other apps ignore the event |
| ControllerApp.Controller.OnSwitchEnter | T2/topo-discovery.py:27-37 | the graph gains the switches, then each link's two edges, and stays valid |
| ControllerApp.Controller.OnSwitchFeatures | A2/q2.py:41-67 | the A2 apps record the switch; every app installs its table-miss defaults |
| ControllerApp.Controller.OnPacketIn | A2/q2.py:70-125 | first sighting with the app's port, then the app's rules on a shortest path installed in order; the exception, if any, is returned after the rules sent before it; only the group-table flow-mod can be refused, for a group it sends afterwards; group 1 is present after a group-table packet to a known destination; the graph invariant, the table-0 shape and the failover-only groups are kept |
| ControllerApp.Controller.MonitorTick | A2/q3test.py:203-220 | one monitor pass: the q3 and q3test request lists exactly; for stats one flow-stats request per registered datapath, in registry order, and none to any other id; no requests from the other apps |
| ControllerApp.Q2BlockedPairDropped | A2/q2.py:105-125 | after a blocked pair's handler, a (src, dst) packet at the packet-in switch is dropped in table 0, although its table-1 routes are installed |
| ControllerApp.Q2AdmittedPairReachesTableOne | A2/q3.py:96-120 | after an admitted pair's handler, a (src, dst) packet at the packet-in switch still goes on to table 1 |
| ControllerApp.TopoKnownSourceInert | T2/topo-discovery.py:84-89 | a packet from a known source changes neither the graph nor any table; with a known destination it raises KeyError exactly when the packet-in switch is not a node |

## Left out

- Ryu plumbing is not modelled:
  - `@set_ev_cls` registration, and the dispatcher states other than the registry's MAIN/DEAD;
  - construction of `OFPFlowMod`, `OFPGroupMod` and `OFPPacketOut`;
  - `send_msg`.

  Sent messages are values applied to the modelled switch tables.
- The `OFPPacketOut` that q3test, odd-even and stats send after installing is not modelled (A2/q3test.py:146, T2P2/multi-table-odd-even.py:132-133, T2P2/stats.py:133-134). It forwards one packet and changes no table.
- Packet parsing and the topology API are inputs, not modelled:
  - packet parsing through `ryu.lib.packet`;
  - `get_switch` and `get_link`.

  `src`, `dst`, `in_port`, the TCP destination port and the switch and link lists are parameters of the handler methods.
- Paths.ShortestPath: networkx's tie-break among equal-length shortest paths is not modelled. The contract admits any shortest path, and the lemmas hold for every one.
- The `hub.spawn` / `hub.sleep` monitor threads and the time between ticks are concurrency. `MonitorTick` is a single pass.
- Printing and logging are left out. That includes the port-stats reply handlers of q3 and q3test, which only print. Of the flow-stats reply, the priority filter, the fields each logged line reads and the exceptions raised while reading them are modelled, not the log output itself.
- Monitor.Q3TestTick: iterates a set, so it does not model the order of `self.switches.values()`. At most one request is sent, so the order cannot show.
- Switch-side liveness of fast-failover buckets is left out: the switch decides it, not the controller.
- Table and datapath ids are unbounded naturals. The 8-bit table id and 64-bit dpid limits are not reached by any value the apps use.
- T2P2/multi-table-odd-even-blank.py is an unfinished skeleton and is not valid Python, so it is not part of this model.
- The Mininet topology scripts and the Scapy senders and receivers are emulator setup and raw network I/O, so they are not part of this model.
- No de-duplication of rules is modelled, because the code has none. It re-sends rules on every packet-in, and `OpenFlow.InstallFlowsIdempotent` shows that re-sending leaves the tables unchanged.
