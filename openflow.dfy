/**
 * The slice of OpenFlow 1.3 that the controller apps emit and that the switches
 * keep: actions, matches, instructions, flow-mod and group-mod messages, the
 * per-switch flow tables with OFPFC_ADD overwrite semantics (section 6.4 of the
 * OpenFlow Switch Specification 1.3), the group tables with OFPGC_ADD, and the
 * table pipeline a packet walks through (sections 5.1, 5.3 and 5.4 of the same
 * specification).
 */
module OpenFlow {
  import opened Outcomes

  /** OFPP_CONTROLLER: the reserved port that sends a packet to the controller. */
  const OFPP_CONTROLLER: nat := 0xffff_fffd
  /** OFPCML_MAX: Ryu's default max_len of OFPActionOutput. */
  const OFPCML_MAX: nat := 0xffe5
  /** OFPCML_NO_BUFFER: send the whole packet to the controller. */
  const OFPCML_NO_BUFFER: nat := 0xffff
  /** OFPTT_MAX: the last usable flow-table id. */
  const OFPTT_MAX: nat := 0xfe
  /** Ethernet type of IPv4 and IP protocol number of TCP. */
  const ETH_TYPE_IPV4: nat := 0x800
  const IP_PROTO_TCP: nat := 6

  datatype Action =
    | Output(port: nat, maxLen: nat)
    | GroupAction(groupId: nat)
    | SetEthDst(mac: string)
    | SetIpv4Dst(addr: string)

  /** OFPActionOutput(port) with Ryu's default max_len. */
  function Out(port: nat): Action { Output(port, OFPCML_MAX) }

  /** OFPActionOutput(OFPP_CONTROLLER, OFPCML_NO_BUFFER). */
  function ToController(): Action { Output(OFPP_CONTROLLER, OFPCML_NO_BUFFER) }

  /** An OFPMatch; a field that is None is a wildcard. */
  datatype Match = Match(
    ethSrc: Option<string>,
    ethDst: Option<string>,
    ethType: Option<nat>,
    ipProto: Option<nat>,
    tcpDst: Option<nat>)

  /** OFPMatch(): matches every packet. */
  function EmptyMatch(): Match { Match(None, None, None, None, None) }

  /** OFPMatch(eth_dst=dst, eth_src=src). */
  function PairMatch(src: string, dst: string): Match { Match(Some(src), Some(dst), None, None, None) }

  /** OFPMatch(eth_dst=dst). */
  function DstMatch(dst: string): Match { Match(None, Some(dst), None, None, None) }

  /** OFPMatch(eth_dst=dst, eth_type=0x800, ip_proto=6, tcp_dst=port). */
  function TcpDstMatch(dst: string, port: nat): Match {
    Match(None, Some(dst), Some(ETH_TYPE_IPV4), Some(IP_PROTO_TCP), Some(port))
  }

  /** The single instruction each flow-mod of the apps carries. */
  datatype Instruction = Apply(actions: seq<Action>) | Goto(table: nat)

  /** An OFPFlowMod with command OFPFC_ADD. */
  datatype FlowMod = FlowMod(dpid: nat, table: nat, priority: nat, pattern: Match, instr: Instruction)

  /** A flow entry is identified by its table, priority and match (section 6.4 of the
      OpenFlow Switch Specification 1.3). */
  datatype FlowKey = FlowKey(table: nat, priority: nat, pattern: Match)

  /** The flow entries of one switch, over all its tables. */
  type FlowTable = map<FlowKey, Instruction>

  /** The flow entries of every switch, by datapath id. */
  type Fabric = map<nat, FlowTable>

  function KeyOf(f: FlowMod): FlowKey { FlowKey(f.table, f.priority, f.pattern) }

  /** The entry a switch holds under a key, if any. */
  function Entry(t: Fabric, dpid: nat, k: FlowKey): Option<Instruction> {
    if dpid in t && k in t[dpid] then Some(t[dpid][k]) else None
  }

  /** OFPFC_ADD: the entry with the same table, priority and match is replaced. */
  function InstallFlow(t: Fabric, f: FlowMod): (r: Fabric)
    ensures r.Keys == t.Keys + {f.dpid}
    ensures Entry(r, f.dpid, KeyOf(f)) == Some(f.instr)
    ensures forall d, k :: (d != f.dpid || k != KeyOf(f)) ==> Entry(r, d, k) == Entry(t, d, k)
  {
    var entries := if f.dpid in t then t[f.dpid] else map[];
    t[f.dpid := entries[KeyOf(f) := f.instr]]
  }

  /** The flow-mods sent in order; the last one sent for a key wins. */
  function InstallFlows(t: Fabric, fs: seq<FlowMod>): Fabric
    decreases |fs|
  {
    if fs == [] then t else InstallFlow(InstallFlows(t, fs[..|fs| - 1]), fs[|fs| - 1])
  }

  /** The datapath ids a sequence of flow-mods addresses. */
  function Targets(fs: seq<FlowMod>): set<nat>
    decreases |fs|
  {
    if fs == [] then {} else Targets(fs[..|fs| - 1]) + {fs[|fs| - 1].dpid}
  }

  /** The instruction of the last flow-mod in fs for switch dpid and key k. */
  function LastWrite(fs: seq<FlowMod>, dpid: nat, k: FlowKey): Option<Instruction>
    decreases |fs|
  {
    if fs == [] then None
    else if fs[|fs| - 1].dpid == dpid && KeyOf(fs[|fs| - 1]) == k then Some(fs[|fs| - 1].instr)
    else LastWrite(fs[..|fs| - 1], dpid, k)
  }

  /** Installing a batch: the switches it touches gain tables, and every entry is the last
      write for its key, or what was there before when the batch does not write it. */
  lemma {:induction false} InstallFlowsEntries(t: Fabric, fs: seq<FlowMod>)
    ensures InstallFlows(t, fs).Keys == t.Keys + Targets(fs)
    ensures forall d, k ::
              Entry(InstallFlows(t, fs), d, k) ==
              (if LastWrite(fs, d, k).Some? then LastWrite(fs, d, k) else Entry(t, d, k))
    decreases |fs|
  {
    if fs != [] {
      InstallFlowsEntries(t, fs[..|fs| - 1]);
    }
  }

  /** Two fabrics with the same switches and the same entries are equal. */
  lemma FabricExtensional(a: Fabric, b: Fabric)
    requires a.Keys == b.Keys
    requires forall d, k :: Entry(a, d, k) == Entry(b, d, k)
    ensures a == b
  {
    forall d | d in a ensures a[d] == b[d] {
      assert forall k :: k in a[d] <==> Entry(a, d, k).Some?;
      assert forall k :: k in b[d] <==> Entry(b, d, k).Some?;
      assert a[d].Keys == b[d].Keys;
      forall k | k in a[d] ensures a[d][k] == b[d][k] {
        assert Entry(a, d, k) == Entry(b, d, k);
      }
    }
  }

  /** Re-sending the same flow-mods leaves the switches as they were after the first
      send: OFPFC_ADD makes installation idempotent. */
  lemma InstallFlowsIdempotent(t: Fabric, fs: seq<FlowMod>)
    ensures InstallFlows(InstallFlows(t, fs), fs) == InstallFlows(t, fs)
  {
    var once := InstallFlows(t, fs);
    InstallFlowsEntries(t, fs);
    InstallFlowsEntries(once, fs);
    FabricExtensional(InstallFlows(once, fs), once);
  }

  /** Sending a batch in two parts is sending it whole. */
  lemma {:induction false} InstallFlowsAppend(t: Fabric, a: seq<FlowMod>, b: seq<FlowMod>)
    ensures InstallFlows(t, a + b) == InstallFlows(InstallFlows(t, a), b)
    decreases |b|
  {
    if b == [] {
      assert a + b == a;
    } else {
      assert (a + b)[..|a + b| - 1] == a + b[..|b| - 1];
      InstallFlowsAppend(t, a, b[..|b| - 1]);
    }
  }

  // ---------------------------------------------------------------------------
  // Group tables (section 5.6 of the OpenFlow Switch Specification 1.3 and its
  // OFPGC_ADD command, section 6.7)
  // ---------------------------------------------------------------------------

  datatype GroupType = FastFailover

  /** An OFPBucket: the watched port selects the bucket while it is live. */
  datatype Bucket = Bucket(weight: nat, watchPort: nat, watchGroup: nat, actions: seq<Action>)

  datatype GroupCommand = GroupAdd

  /** An OFPGroupMod. */
  datatype GroupMod = GroupMod(dpid: nat, command: GroupCommand, gtype: GroupType, groupId: nat, buckets: seq<Bucket>)

  datatype GroupEntry = GroupEntry(gtype: GroupType, buckets: seq<Bucket>)

  /** The group entries of every switch, by datapath id and group id. */
  type GroupFabric = map<nat, map<nat, GroupEntry>>

  /** OFPGC_ADD: a switch refuses to add a group whose id it already holds
      (OFPGMFC_GROUP_EXISTS), so the first entry stays. */
  function InstallGroup(t: GroupFabric, m: GroupMod): (r: GroupFabric)
    ensures r.Keys == t.Keys + {m.dpid}
    ensures m.groupId in r[m.dpid]
    ensures m.dpid in t && m.groupId in t[m.dpid] ==> r == t
    ensures !(m.dpid in t && m.groupId in t[m.dpid]) ==> r[m.dpid][m.groupId] == GroupEntry(m.gtype, m.buckets)
    ensures forall d :: d in t && d != m.dpid ==> r[d] == t[d]
    ensures forall id :: m.dpid in t && id in t[m.dpid] ==> id in r[m.dpid] && r[m.dpid][id] == t[m.dpid][id]
  {
    var groups := if m.dpid in t then t[m.dpid] else map[];
    if m.groupId in groups then t[m.dpid := groups]
    else t[m.dpid := groups[m.groupId := GroupEntry(m.gtype, m.buckets)]]
  }

  function InstallGroups(t: GroupFabric, ms: seq<GroupMod>): GroupFabric
    decreases |ms|
  {
    if ms == [] then t else InstallGroup(InstallGroups(t, ms[..|ms| - 1]), ms[|ms| - 1])
  }

  /** Switch dpid holds group id. */
  predicate HasGroup(gt: GroupFabric, dpid: nat, id: nat) {
    dpid in gt && id in gt[dpid]
  }

  /** The flow-mod applies a group that the switch it is sent to does not hold. */
  predicate NamesMissingGroup(gt: GroupFabric, f: FlowMod) {
    f.instr.Apply? && exists a | a in f.instr.actions :: a.GroupAction? && !HasGroup(gt, f.dpid, a.groupId)
  }

  /** A flow-mod that only outputs, or only continues the pipeline, names no group. */
  predicate OutputsOnly(f: FlowMod) {
    f.instr.Apply? ==> forall a | a in f.instr.actions :: a.Output?
  }

  /** A switch receiving a flow-mod: one that applies a group the switch does not hold is
      refused with OFPBAC_BAD_OUT_GROUP (section 6.4 of the OpenFlow Switch Specification
      1.3) and changes nothing; any other is added by OFPFC_ADD. */
  function AdmitFlow(t: Fabric, gt: GroupFabric, f: FlowMod): (r: Fabric)
    ensures !NamesMissingGroup(gt, f) ==> r.Keys == t.Keys + {f.dpid} && Entry(r, f.dpid, KeyOf(f)) == Some(f.instr)
    ensures forall d, k :: (NamesMissingGroup(gt, f) || d != f.dpid || k != KeyOf(f)) ==> Entry(r, d, k) == Entry(t, d, k)
    ensures NamesMissingGroup(gt, f) ==> r == t
  {
    if NamesMissingGroup(gt, f) then t else InstallFlow(t, f)
  }

  /** The flow-mods sent in order to switches whose groups are gt. */
  function AdmitFlows(t: Fabric, gt: GroupFabric, fs: seq<FlowMod>): Fabric
    decreases |fs|
  {
    if fs == [] then t else AdmitFlow(AdmitFlows(t, gt, fs[..|fs| - 1]), gt, fs[|fs| - 1])
  }

  /** Flow-mods that name no missing group are all added, as OFPFC_ADD alone adds them;
      in particular flow-mods that only output. */
  lemma {:induction false} AdmitFlowsNoMissingGroup(t: Fabric, gt: GroupFabric, fs: seq<FlowMod>)
    requires forall f | f in fs :: !NamesMissingGroup(gt, f)
    ensures AdmitFlows(t, gt, fs) == InstallFlows(t, fs)
    decreases |fs|
  {
    if fs != [] {
      assert forall f | f in fs[..|fs| - 1] :: f in fs;
      AdmitFlowsNoMissingGroup(t, gt, fs[..|fs| - 1]);
    }
  }

  // ---------------------------------------------------------------------------
  // The pipeline (sections 5.1, 5.3 and 5.4 of the OpenFlow Switch Specification 1.3)
  // ---------------------------------------------------------------------------

  /** The header fields the apps' matches look at. */
  datatype Packet = Packet(ethSrc: string, ethDst: string, ethType: nat, ipProto: nat, tcpDst: Option<nat>)

  predicate FieldMatches<T(==)>(f: Option<T>, v: T) { f.None? || f.value == v }

  predicate Matches(m: Match, p: Packet) {
    && FieldMatches(m.ethSrc, p.ethSrc)
    && FieldMatches(m.ethDst, p.ethDst)
    && FieldMatches(m.ethType, p.ethType)
    && FieldMatches(m.ipProto, p.ipProto)
    && (m.tcpDst.None? || p.tcpDst == m.tcpDst)
  }

  /** Entry k of table t matches p with a priority above every other matching entry
      of that table (section 5.3 of the OpenFlow Switch Specification 1.3). */
  ghost predicate Selects(ft: FlowTable, t: nat, p: Packet, k: FlowKey) {
    && k in ft && k.table == t && Matches(k.pattern, p)
    && forall k2 | k2 in ft && k2.table == t && Matches(k2.pattern, p) && k2 != k :: k2.priority < k.priority
  }

  ghost predicate AnyMatch(ft: FlowTable, t: nat, p: Packet) {
    exists k :: k in ft && k.table == t && Matches(k.pattern, p)
  }

  /** What the pipeline does with a packet: run an action set (an empty one drops it),
      drop it on a table miss without a table-miss entry, or nothing the OpenFlow Switch
      Specification 1.3 defines: several matching entries share the highest priority,
      or a goto does not lead to a later table (its sections 5.4, 5.3 and 5.1). */
  datatype Verdict = Execute(actions: seq<Action>) | Miss | Ambiguous | BadGoto

  lemma SelectsUnique(ft: FlowTable, t: nat, p: Packet, k1: FlowKey, k2: FlowKey)
    requires Selects(ft, t, p, k1) && Selects(ft, t, p, k2)
    ensures k1 == k2
  {
  }

  /** Processing a packet from table t onwards. */
  ghost function Process(ft: FlowTable, t: nat, p: Packet): Verdict
    decreases OFPTT_MAX + 1 - t
  {
    if t > OFPTT_MAX then BadGoto
    else if !AnyMatch(ft, t, p) then Miss
    else if exists k :: Selects(ft, t, p, k) then
      var k :| Selects(ft, t, p, k);
      match ft[k]
      case Apply(a) => Execute(a)
      case Goto(t2) => if t2 <= t then BadGoto else Process(ft, t2, p)
    else Ambiguous
  }

  /** When an entry is selected, processing follows that entry's instruction. */
  lemma ProcessSelected(ft: FlowTable, t: nat, p: Packet, k: FlowKey)
    requires t <= OFPTT_MAX
    requires Selects(ft, t, p, k)
    ensures ft[k].Apply? ==> Process(ft, t, p) == Execute(ft[k].actions)
    ensures ft[k].Goto? && ft[k].table > t ==> Process(ft, t, p) == Process(ft, ft[k].table, p)
  {
    assert AnyMatch(ft, t, p);
    forall k' | Selects(ft, t, p, k') ensures k' == k {
      SelectsUnique(ft, t, p, k, k');
    }
  }
}
