/**
 * What the installed rules do to a packet, under the pipeline of sections 5.1, 5.3
 * and 5.4 of the OpenFlow Switch Specification 1.3: the table-miss defaults send to
 * the controller, a table-0 drop pre-empts any table-1 forwarding for its flow, an
 * admitted flow falls through to table 1, the odd-even rule delivers from either
 * table, and the single-table q1 drop and forwarding rules can tie.
 */
module Pipeline {
  import opened Outcomes
  import opened OpenFlow
  import opened OneHop
  import opened Policy
  import opened Topology

  /** The key of a table's priority-0 empty-match entry. */
  function MissKey(table: nat): FlowKey { FlowKey(table, 0, EmptyMatch()) }

  /** The switch tables the two-table defaults leave. */
  function TwoTableMiss(): FlowTable {
    map[MissKey(0) := Goto(1), MissKey(1) := Apply([ToController()])]
  }

  /** The switch table the single-table default leaves. */
  function SingleTableMiss(): FlowTable {
    map[MissKey(0) := Apply([ToController()])]
  }

  /** Installing the defaults on a switch with no entries leaves exactly the miss entries. */
  lemma DefaultsInstall(t: Fabric, dpid: nat)
    requires dpid !in t
    ensures InstallFlows(t, TwoTableDefaults(dpid)) == t[dpid := TwoTableMiss()]
    ensures InstallFlows(t, SingleTableDefault(dpid)) == t[dpid := SingleTableMiss()]
  {
    var two := TwoTableDefaults(dpid);
    assert two[..1][..0] == [] && two[..1] == [two[0]];
    var t1 := InstallFlow(t, two[0]);
    assert InstallFlows(t, two[..1]) == t1;
    assert t1 == t[dpid := map[MissKey(0) := Goto(1)]];
    assert InstallFlows(t, two) == InstallFlow(t1, two[1]);
    var one := SingleTableDefault(dpid);
    assert one[..0] == [];
  }

  /** With only the defaults installed every packet goes to the controller, through
      table 1 in the two-table apps. */
  lemma MissToController(p: Packet)
    ensures Process(TwoTableMiss(), 0, p) == Execute([ToController()])
    ensures Process(SingleTableMiss(), 0, p) == Execute([ToController()])
  {
    var ft := TwoTableMiss();
    ProcessSelected(ft, 0, p, MissKey(0));
    ProcessSelected(ft, 1, p, MissKey(1));
    ProcessSelected(SingleTableMiss(), 0, p, MissKey(0));
  }

  // ---------------------------------------------------------------------------
  // Two tables: the drop in table 0 and the forwarding in table 1
  // ---------------------------------------------------------------------------

  /** A match on exactly `eth_src` and `eth_dst`. */
  predicate IsPairMatch(m: Match) {
    m.ethSrc.Some? && m.ethDst.Some? && m.ethType.None? && m.ipProto.None? && m.tcpDst.None?
  }

  /** Table 0 holds only the goto default and empty-action (src, dst) drops at
      priority dropPriority: the shape the q2 and q3 apps (priority 1) and the q3test
      app (priority 2) keep. */
  ghost predicate TableZeroShape(ft: FlowTable, dropPriority: nat) {
    forall k | k in ft && k.table == 0 ::
      || (k == MissKey(0) && ft[k] == Goto(1))
      || (k.priority == dropPriority && IsPairMatch(k.pattern) && ft[k] == Apply([]))
  }

  ghost predicate FabricShape(t: Fabric, dropPriority: nat) {
    forall d | d in t :: TableZeroShape(t[d], dropPriority)
  }

  /** A flow-mod that keeps the shape: outside table 0, the goto default, or a drop. */
  predicate ShapeCompatible(f: FlowMod, dropPriority: nat) {
    || f.table != 0
    || (KeyOf(f) == MissKey(0) && f.instr == Goto(1))
    || (f.priority == dropPriority && IsPairMatch(f.pattern) && f.instr == Apply([]))
  }

  lemma InstallKeepsShape(t: Fabric, f: FlowMod, dropPriority: nat)
    requires FabricShape(t, dropPriority) && ShapeCompatible(f, dropPriority)
    ensures FabricShape(InstallFlow(t, f), dropPriority)
  {
    var r := InstallFlow(t, f);
    forall d: nat, k: FlowKey | d in r && k in r[d] && k.table == 0
      ensures || (k == MissKey(0) && r[d][k] == Goto(1))
              || (k.priority == dropPriority && IsPairMatch(k.pattern) && r[d][k] == Apply([]))
    {
      assert Entry(r, d, k) == Some(r[d][k]);
      if d != f.dpid || k != KeyOf(f) {
        assert Entry(t, d, k) == Some(r[d][k]);
      }
    }
  }

  /** Sending flow-mods that each keep the shape keeps it. */
  lemma {:induction false} InstallAllKeepShape(t: Fabric, fs: seq<FlowMod>, dropPriority: nat)
    requires FabricShape(t, dropPriority)
    requires forall f | f in fs :: ShapeCompatible(f, dropPriority)
    ensures FabricShape(InstallFlows(t, fs), dropPriority)
    decreases |fs|
  {
    if fs != [] {
      assert forall f | f in fs[..|fs| - 1] :: f in fs;
      InstallAllKeepShape(t, fs[..|fs| - 1], dropPriority);
      InstallKeepsShape(InstallFlows(t, fs[..|fs| - 1]), fs[|fs| - 1], dropPriority);
    }
  }

  /** In a table of that shape, the table-0 entries a packet matches are the goto default
      and the drop for its own (src, dst). */
  lemma TableZeroMatches(ft: FlowTable, dropPriority: nat, p: Packet)
    requires TableZeroShape(ft, dropPriority)
    ensures forall k | k in ft && k.table == 0 && Matches(k.pattern, p) ::
              k == MissKey(0) || k == FlowKey(0, dropPriority, PairMatch(p.ethSrc, p.ethDst))
  {
    forall k | k in ft && k.table == 0 && Matches(k.pattern, p)
      ensures k == MissKey(0) || k == FlowKey(0, dropPriority, PairMatch(p.ethSrc, p.ethDst))
    {
      if k != MissKey(0) {
        assert k.pattern == PairMatch(p.ethSrc, p.ethDst);
      }
    }
  }

  /** A (src, dst) drop in table 0 decides every (src, dst) packet: it is dropped, and no
      table-1 entry, whatever its priority, is reached. */
  lemma DropPreempts(ft: FlowTable, dropPriority: nat, p: Packet)
    requires dropPriority >= 1
    requires TableZeroShape(ft, dropPriority)
    requires FlowKey(0, dropPriority, PairMatch(p.ethSrc, p.ethDst)) in ft
    ensures Process(ft, 0, p) == Execute([])
  {
    var k := FlowKey(0, dropPriority, PairMatch(p.ethSrc, p.ethDst));
    TableZeroMatches(ft, dropPriority, p);
    assert Selects(ft, 0, p, k);
    ProcessSelected(ft, 0, p, k);
  }

  /** Without a drop for its (src, dst), a packet leaves table 0 by the goto default and
      is decided by table 1. */
  lemma AdmittedReachesTableOne(ft: FlowTable, dropPriority: nat, p: Packet)
    requires dropPriority >= 1
    requires TableZeroShape(ft, dropPriority)
    requires MissKey(0) in ft
    requires FlowKey(0, dropPriority, PairMatch(p.ethSrc, p.ethDst)) !in ft
    ensures Process(ft, 0, p) == Process(ft, 1, p)
  {
    TableZeroMatches(ft, dropPriority, p);
    assert Selects(ft, 0, p, MissKey(0));
    ProcessSelected(ft, 0, p, MissKey(0));
  }

  // ---------------------------------------------------------------------------
  // T2P2/multi-table-odd-even.py: either table delivers
  // ---------------------------------------------------------------------------

  /** A TCP packet to dst with destination port tcpPort. */
  predicate IsTcpTo(p: Packet, dst: string, tcpPort: nat) {
    p.ethDst == dst && p.ethType == ETH_TYPE_IPV4 && p.ipProto == IP_PROTO_TCP && p.tcpDst == Some(tcpPort)
  }

  /** The key of an odd-even rule: priority 1, a match on `eth_dst`, IPv4, TCP and
      `tcp_dst`, in table 0 for an even port and table 1 for an odd one. */
  predicate IsOddEvenKey(k: FlowKey) {
    && k.priority == 1
    && k.pattern.ethDst.Some? && k.pattern.tcpDst.Some?
    && k.pattern == TcpDstMatch(k.pattern.ethDst.value, k.pattern.tcpDst.value)
    && k.table == (if IsEven(k.pattern.tcpDst.value) then 0 else 1)
  }

  /** A switch table of the odd-even app: its two table-miss defaults and any number of
      odd-even rules. */
  predicate OddEvenTable(ft: FlowTable) {
    && MissKey(0) in ft && ft[MissKey(0)] == Goto(1)
    && MissKey(1) in ft && ft[MissKey(1)] == Apply([ToController()])
    && forall k | k in ft && k != MissKey(0) && k != MissKey(1) :: IsOddEvenKey(k)
  }

  /** The defaults make an odd-even table, and installing an odd-even rule for any
      destination and port keeps it one. */
  lemma OddEvenTableInstall(ft: FlowTable, g: Graph, dpid: nat, dst: string, tcpPort: nat)
    requires OddEvenTable(ft)
    ensures OddEvenTable(TwoTableMiss())
    ensures var r := OddEvenRule(g, dpid, dst, tcpPort);
            r.Ok? ==> OddEvenTable(ft[KeyOf(r.value) := r.value.instr])
  {
    var r := OddEvenRule(g, dpid, dst, tcpPort);
    if r.Ok? {
      assert IsOddEvenKey(KeyOf(r.value));
    }
  }

  /** On an odd-even switch table holding the rule for (dst, tcpPort), a packet the rule is
      for is forwarded by it, whether the port's parity put it in table 0 or table 1: no
      other rule of the table matches it, and an odd port's packet misses table 0. */
  lemma OddEvenDelivers(ft: FlowTable, dst: string, tcpPort: nat, out: nat, p: Packet)
    requires OddEvenTable(ft)
    requires FlowKey(if IsEven(tcpPort) then 0 else 1, 1, TcpDstMatch(dst, tcpPort)) in ft
    requires ft[FlowKey(if IsEven(tcpPort) then 0 else 1, 1, TcpDstMatch(dst, tcpPort))] == Apply([Out(out)])
    requires IsTcpTo(p, dst, tcpPort)
    ensures Process(ft, 0, p) == Execute([Out(out)])
  {
    var table := if IsEven(tcpPort) then 0 else 1;
    var k := FlowKey(table, 1, TcpDstMatch(dst, tcpPort));
    forall k2 | k2 in ft && Matches(k2.pattern, p) && k2 != MissKey(0) && k2 != MissKey(1)
      ensures k2 == k
    {
      assert IsOddEvenKey(k2);
    }
    assert Selects(ft, table, p, k);
    ProcessSelected(ft, table, p, k);
    if table == 1 {
      assert Selects(ft, 0, p, MissKey(0));
      ProcessSelected(ft, 0, p, MissKey(0));
    }
  }

  // ---------------------------------------------------------------------------
  // A2/q1.py: one table, drop and forwarding at the same priority
  // ---------------------------------------------------------------------------

  /** When the q1 drop for (src, dst) and a q1 forwarding rule for dst both sit in table 0
      at priority 1 and nothing there has a higher priority, a (src, dst) packet matches
      two entries of the highest priority: section 5.3 of the OpenFlow Switch
      Specification 1.3 leaves the outcome undefined, so
      the drop is not guaranteed to win. */
  lemma SingleTableTie(ft: FlowTable, p: Packet)
    requires FlowKey(0, 1, PairMatch(p.ethSrc, p.ethDst)) in ft
    requires FlowKey(0, 1, DstMatch(p.ethDst)) in ft
    requires forall k | k in ft && k.table == 0 :: k.priority <= 1
    ensures Process(ft, 0, p) == Ambiguous
  {
    var drop, fwd := FlowKey(0, 1, PairMatch(p.ethSrc, p.ethDst)), FlowKey(0, 1, DstMatch(p.ethDst));
    assert drop != fwd;
    assert AnyMatch(ft, 0, p) by {
      assert drop in ft && drop.table == 0 && Matches(drop.pattern, p);
    }
    forall k | k in ft && k.table == 0 && Matches(k.pattern, p) ensures !Selects(ft, 0, p, k) {
      var other := if k == drop then fwd else drop;
      assert other in ft && other.table == 0 && Matches(other.pattern, p) && other != k;
      assert other.priority >= k.priority;
    }
  }
}
