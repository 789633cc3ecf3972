/**
 * The switch-connect defaults of every app and the rule compilers of the T2P2 apps,
 * which forward one hop from the packet-in switch: the TCP-port-parity table choice
 * of the odd-even app, the `eth_dst` forwarding of the stats app and the
 * fast-failover group of the group-table app.
 */
module OneHop {
  import opened Outcomes
  import opened OpenFlow
  import opened Topology
  import opened Policy
  import opened Compilers

  // ---------------------------------------------------------------------------
  // add_flow, add_flow_goto and the defaults sent on switch connect
  // ---------------------------------------------------------------------------

  /** `add_flow(datapath, priority, tableID, match, actions)`: one flow-mod whose single
      instruction applies the actions. The single-table apps' `add_flow` has no table
      argument and so writes table 0. */
  function AddFlow(dpid: nat, priority: nat, table: nat, pattern: Match, actions: seq<Action>): (f: FlowMod)
    ensures f.dpid == dpid && KeyOf(f) == FlowKey(table, priority, pattern)
    ensures f.instr == Apply(actions)
  {
    FlowMod(dpid, table, priority, pattern, Apply(actions))
  }

  /** `add_flow_goto(datapath, priority, tableID, match, dstTable)`: one flow-mod whose
      single instruction continues the pipeline at dstTable. */
  function AddFlowGoto(dpid: nat, priority: nat, table: nat, pattern: Match, dstTable: nat): (f: FlowMod)
    ensures f.dpid == dpid && KeyOf(f) == FlowKey(table, priority, pattern)
    ensures f.instr == Goto(dstTable)
  {
    FlowMod(dpid, table, priority, pattern, Goto(dstTable))
  }

  /** The two-table defaults of the q2, q3, q3test and odd-even apps: a table-0 miss entry
      going to table 1, then a table-1 miss entry sending to the controller. */
  function TwoTableDefaults(dpid: nat): seq<FlowMod> {
    [AddFlowGoto(dpid, 0, 0, EmptyMatch(), 1),
     AddFlow(dpid, 0, 1, EmptyMatch(), [ToController()])]
  }

  /** The single-table default of the q1, stats, group-table and topo-discovery apps: a
      table-0 miss entry sending to the controller. */
  function SingleTableDefault(dpid: nat): seq<FlowMod> {
    [AddFlow(dpid, 0, 0, EmptyMatch(), [ToController()])]
  }

  /** The defaults are table-miss entries (priority 0, empty match, section 5.4 of the
      OpenFlow Switch Specification 1.3), all on
      the connecting switch; the two-table ones chain table 0 into table 1 and end at
      the controller. */
  lemma DefaultsAreTableMiss(dpid: nat)
    ensures forall f | f in TwoTableDefaults(dpid) + SingleTableDefault(dpid) ::
              f.dpid == dpid && f.priority == 0 && f.pattern == EmptyMatch()
    ensures TwoTableDefaults(dpid)[0].table == 0 && TwoTableDefaults(dpid)[0].instr == Goto(1)
    ensures TwoTableDefaults(dpid)[1].table == 1 && TwoTableDefaults(dpid)[1].instr == Apply([ToController()])
    ensures SingleTableDefault(dpid) == [FlowMod(dpid, 0, 0, EmptyMatch(), Apply([ToController()]))]
  {
  }

  // ---------------------------------------------------------------------------
  // T2P2/multi-table-odd-even.py
  // ---------------------------------------------------------------------------

  /** The odd-even rule for a TCP packet to dst with destination port tcpPort arriving
      at dpid: forward `(eth_dst, IPv4, TCP, tcp_dst)` on the port of the edge dpid ->
      dst, at priority 1, in table 0 for an even port and table 1 for an odd one. The
      lookup `self.net[dpid][dst]['port']` raises when there is no such edge. */
  function OddEvenRule(g: Graph, dpid: nat, dst: string, tcpPort: nat): (r: Result<FlowMod, Fault>)
    ensures r.Ok? <==> Switch(dpid) in g && Host(dst) in g[Switch(dpid)] && g[Switch(dpid)][Host(dst)].Some?
    ensures r.Ok? ==> && r.value.dpid == dpid && r.value.priority == 1
                      && r.value.pattern == TcpDstMatch(dst, tcpPort)
                      && r.value.instr == Apply([Out(g[Switch(dpid)][Host(dst)].value)])
                      && (r.value.table == 0 <==> IsEven(tcpPort))
                      && r.value.table <= 1
  {
    match PortToward(g, Switch(dpid), Host(dst))
    case Err(f) => Err(f)
    case Ok(port) => Ok(AddFlow(dpid, 1, if IsEven(tcpPort) then 0 else 1, TcpDstMatch(dst, tcpPort), [Out(port)]))
  }

  /** The odd-even handler once the source was already a node: a rule only for a TCP
      packet to a known destination. */
  function OddEvenRules(g: Graph, dpid: nat, dst: string, tcpDst: Option<nat>): (e: Emission)
    ensures e.groups == [] && |e.flows| <= 1
    ensures (Host(dst) !in g || tcpDst.None?) ==> e == Nothing()
    ensures Host(dst) in g && tcpDst.Some? ==>
              var r := OddEvenRule(g, dpid, dst, tcpDst.value);
              e == if r.Ok? then Emission([r.value], [], None) else Raise(r.error)
  {
    if Host(dst) !in g || tcpDst.None? then Nothing()
    else match OddEvenRule(g, dpid, dst, tcpDst.value)
      case Err(f) => Raise(f)
      case Ok(rule) => Emission([rule], [], None)
  }

  // ---------------------------------------------------------------------------
  // T2P2/stats.py
  // ---------------------------------------------------------------------------

  /** The stats app's rule: forward `eth_dst=dst` at priority 1 on the port of the edge
      dpid -> dst. */
  function StatsRule(g: Graph, dpid: nat, dst: string): (r: Result<FlowMod, Fault>)
    ensures r.Ok? <==> Switch(dpid) in g && Host(dst) in g[Switch(dpid)] && g[Switch(dpid)][Host(dst)].Some?
    ensures r.Ok? ==> r.value == FlowMod(dpid, 0, 1, DstMatch(dst), Apply([Out(g[Switch(dpid)][Host(dst)].value)]))
  {
    match PortToward(g, Switch(dpid), Host(dst))
    case Err(f) => Err(f)
    case Ok(port) => Ok(AddFlow(dpid, 1, 0, DstMatch(dst), [Out(port)]))
  }

  /** The stats handler once the source was already a node. */
  function StatsRules(g: Graph, dpid: nat, dst: string): (e: Emission)
    ensures e.groups == [] && |e.flows| <= 1
    ensures Host(dst) !in g ==> e == Nothing()
    ensures Host(dst) in g ==>
              var r := StatsRule(g, dpid, dst);
              e == if r.Ok? then Emission([r.value], [], None) else Raise(r.error)
  {
    if Host(dst) !in g then Nothing()
    else match StatsRule(g, dpid, dst)
      case Err(f) => Raise(f)
      case Ok(rule) => Emission([rule], [], None)
  }

  /** In a valid graph the one-hop lookup of the stats and odd-even apps succeeds exactly
      when the packet-in switch is the switch the destination is attached to. */
  lemma {:induction false} OneHopAtAttachment(g: Graph, dpid: nat, dst: string, tcpPort: nat)
    requires GraphValid(g) && Host(dst) in g
    ensures StatsRule(g, dpid, dst).Ok? <==> dpid == Attachment(g, dst)
    ensures OddEvenRule(g, dpid, dst, tcpPort).Ok? <==> dpid == Attachment(g, dst)
  {
    var a := Attachment(g, dst);
    if Switch(dpid) in g && Host(dst) in g[Switch(dpid)] {
      assert g[Host(dst)].Keys == {Switch(dpid)};
      assert Switch(a) in g[Host(dst)];
    }
  }

  // ---------------------------------------------------------------------------
  // T2P2/group-table.py
  // ---------------------------------------------------------------------------

  /** The two ordered buckets of the fast-failover group: watch port 2 and rewrite to
      host 2 (00:00:00:00:00:02, 10.0.0.2) out of port 2, else watch port 3 and rewrite
      to host 3 out of port 3. OFPBucket(weight 0, watch_port, watch_group 0, actions). */
  function FailoverBuckets(): seq<Bucket> {
    [Bucket(0, 2, 0, [SetEthDst("00:00:00:00:00:02"), SetIpv4Dst("10.0.0.2"), Out(2)]),
     Bucket(0, 3, 0, [SetEthDst("00:00:00:00:00:03"), SetIpv4Dst("10.0.0.3"), Out(3)])]
  }

  /** The output port of a bucket: that of its last action, when that is an output. */
  function BucketOutput(b: Bucket): Option<nat> {
    if b.actions != [] && b.actions[|b.actions| - 1].Output? then Some(b.actions[|b.actions| - 1].port) else None
  }

  /** Every bucket watches the very port it outputs on, so a bucket is used only while
      its own egress port is live; the buckets are tried port 2 first, then port 3, and
      each rewrites the destination to the host behind its port before the output. */
  lemma FailoverBucketsWatchOwnOutput()
    ensures |FailoverBuckets()| == 2
    ensures forall b | b in FailoverBuckets() :: BucketOutput(b) == Some(b.watchPort) && b.weight == 0
    ensures FailoverBuckets()[0].watchPort == 2 && FailoverBuckets()[1].watchPort == 3
    ensures forall b | b in FailoverBuckets() ::
              |b.actions| == 3 && b.actions[0].SetEthDst? && b.actions[1].SetIpv4Dst?
  {
  }

  /** `add_group(datapath, 1, buckets)`: OFPGC_ADD of a fast-failover group. */
  function AddGroup(dpid: nat, groupId: nat, buckets: seq<Bucket>): (m: GroupMod)
    ensures m.dpid == dpid && m.groupId == groupId && m.buckets == buckets
    ensures m.command == GroupAdd && m.gtype == FastFailover
  {
    GroupMod(dpid, GroupAdd, FastFailover, groupId, buckets)
  }

  /** The group-table handler once the source was already a node and dst is known: an
      `eth_dst=dst` rule at priority 1 whose only action is the group, then the group. */
  function GroupRules(g: Graph, dpid: nat, dst: string): (e: Emission)
    ensures Host(dst) !in g ==> e == Nothing()
    ensures Host(dst) in g ==>
              && e.fault.None?
              && e.flows == [FlowMod(dpid, 0, 1, DstMatch(dst), Apply([GroupAction(FAILOVER_GROUP)]))]
              && e.groups == [GroupMod(dpid, GroupAdd, FastFailover, FAILOVER_GROUP, FailoverBuckets())]
  {
    if Host(dst) !in g then Nothing()
    else Emission([AddFlow(dpid, 1, 0, DstMatch(dst), [GroupAction(FAILOVER_GROUP)])],
                  [AddGroup(dpid, FAILOVER_GROUP, FailoverBuckets())], None)
  }

  /** Every group the switches hold is the failover group under id 1. */
  predicate OnlyFailoverGroup(t: GroupFabric) {
    forall d | d in t :: forall id | id in t[d] :: id == FAILOVER_GROUP && t[d][id] == GroupEntry(FastFailover, FailoverBuckets())
  }

  /** The group a switch holds after the group-table handler ran on it is the failover
      group, whatever the switch held before: a repeated OFPGC_ADD is refused and leaves
      the first group in place, which is the same group. No other group ever appears. */
  lemma GroupInstalledOnce(t: GroupFabric, g: Graph, dpid: nat, dst: string)
    requires OnlyFailoverGroup(t)
    ensures var r := InstallGroups(t, GroupRules(g, dpid, dst).groups);
            && OnlyFailoverGroup(r)
            && (Host(dst) in g ==> HasGroup(r, dpid, FAILOVER_GROUP))
  {
    var ms := GroupRules(g, dpid, dst).groups;
    assert ms[..0] == [];
    if Host(dst) in g {
      assert InstallGroups(t, ms) == InstallGroup(t, ms[0]);
    }
  }
}
