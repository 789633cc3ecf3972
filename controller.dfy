/**
 * The Ryu apps as one controller object. Its state is that of the apps: the
 * topology graph `self.net`, the connected switches `self.switches`, the datapath
 * registry `self.datapaths`, and, on the switch side, the flow and group tables
 * the sent messages build. Each event handler is a method; `app` selects the
 * variant whose handlers run.
 */
module ControllerApp {
  import opened Outcomes
  import opened OpenFlow
  import opened Topology
  import opened Paths
  import opened Policy
  import opened Compilers
  import opened OneHop
  import opened Monitor
  import opened Pipeline

  /** The eight app variants. */
  datatype App = Q1 | Q2 | Q3 | Q3Test | OddEven | Stats | GroupTable | TopoDiscovery

  /** The A2 apps: they keep `self.switches`, bind hosts with port OFPXMT_OFB_IN_PHY_PORT
      and route on the same packet that introduces the source. */
  predicate IsA2(app: App) { app.Q1? || app.Q2? || app.Q3? || app.Q3Test? }

  /** The apps whose defaults chain table 0 into table 1. */
  predicate TwoTable(app: App) { app.Q2? || app.Q3? || app.Q3Test? || app.OddEven? }

  /** The apps with `_state_change_handler` and a monitor thread. */
  predicate HasRegistry(app: App) { app.Q3? || app.Q3Test? || app.Stats? }

  /** The apps whose table 0 only ever holds the goto default and (src, dst) drops. */
  predicate KeepsDropShape(app: App) { app.Q2? || app.Q3? || app.Q3Test? }

  /** The priority of the apps' table-0 drop. */
  function DropPriority(app: App): nat { if app.Q3Test? then 2 else 1 }

  /** The port stored on the switch-to-host edge of a first sighting. */
  function AttachPort(app: App, inPort: nat): nat {
    if IsA2(app) then OFPXMT_OFB_IN_PHY_PORT else inPort
  }

  /** The rules `switch_features_handler` sends. */
  function ConnectRules(app: App, dpid: nat): seq<FlowMod> {
    if TwoTable(app) then TwoTableDefaults(dpid) else SingleTableDefault(dpid)
  }

  /** The path a handler worked with: a shortest path when there is one, None when the
      destination is a node no path leads to. */
  ghost predicate PathChoice(g: Graph, src: string, dst: string, path: Option<seq<Node>>) {
    && (path.Some? ==> IsShortestPath(g, Host(src), Host(dst), path.value))
    && (path.None? && Host(dst) in g ==> forall q :: !PathFromTo(g, Host(src), Host(dst), q))
  }

  /** What `_packet_in_handler` sends after the first-sighting step, per app; before is
      the graph as the packet found it, g the graph after the sighting. */
  function PacketRules(app: App, before: Graph, g: Graph, registered: set<nat>, dpid: nat,
                       src: string, dst: string, tcpDst: Option<nat>, path: Option<seq<Node>>): (e: Emission)
    requires GraphValid(g) && Host(src) in g
    ensures Host(dst) !in g ==> e == Nothing()
    ensures !IsA2(app) && Host(src) !in before ==> e == Nothing()
    ensures app.TopoDiscovery? ==> e.flows == [] && e.groups == []
    ensures app.TopoDiscovery? ==> (e.fault.Some? <==> Host(src) in before && Host(dst) in g && Switch(dpid) !in g)
    ensures !app.GroupTable? ==> e.groups == []
  {
    match app
    case Q1 => Q1Rules(g, dpid, src, dst, path)
    case Q2 => Q2Rules(g, registered, dpid, src, dst, path)
    case Q3 => Q2Rules(g, registered, dpid, src, dst, path)
    case Q3Test => Q3TestRules(g, registered, dpid, src, dst, path)
    case OddEven => if Host(src) !in before then Nothing() else OddEvenRules(g, dpid, dst, tcpDst)
    case Stats => if Host(src) !in before then Nothing() else StatsRules(g, dpid, dst)
    case GroupTable => if Host(src) !in before then Nothing() else GroupRules(g, dpid, dst)
    case TopoDiscovery =>
      if Host(src) in before && Host(dst) in g && Switch(dpid) !in g then Raise(NotInGraph(Switch(dpid)))
      else Nothing()
  }

  /** The q1 part of `_packet_in_handler` for a known destination: the drop alone for a
      blocked pair, else the routing loop over the path when there is one. */
  method Q1Compile(g: Graph, dpid: nat, src: string, dst: string, path: Option<seq<Node>>)
    returns (e: Emission)
    requires GraphValid(g) && Host(src) in g && Host(dst) in g
    ensures e == Q1Rules(g, dpid, src, dst, path)
  {
    if Blocked(Attachment(g, src), Attachment(g, dst)) {
      e := Emission([Drop(dpid, 1, src, dst)], [], None);
    } else if path.None? {
      e := Nothing();
    } else {
      e := Q1RouteAtSwitch(g, dpid, path.value, dst);
    }
  }

  /** The q2/q3 part of `_packet_in_handler` for a known destination: the routing loop
      over the interior, then the drop when routing raised nothing and the pair is
      blocked. */
  method Q2Compile(g: Graph, registered: set<nat>, dpid: nat, src: string, dst: string, path: Option<seq<Node>>)
    returns (e: Emission)
    requires GraphValid(g) && Host(src) in g && Host(dst) in g
    ensures e == Q2Rules(g, registered, dpid, src, dst, path)
  {
    var routes := Nothing();
    if path.Some? {
      routes := Q2RouteInterior(g, registered, Interior(path.value), src, dst);
    }
    e := routes;
    if routes.fault.None? && Blocked(Attachment(g, src), Attachment(g, dst)) {
      e := After(routes.flows, Emission([Drop(dpid, 1, src, dst)], [], None));
    }
  }

  /** The q3test part of `_packet_in_handler` for a known destination: the path-end
      parity test, then the routing loop or the priority-2 drop. */
  method Q3TestCompile(g: Graph, registered: set<nat>, dpid: nat, src: string, dst: string, path: Option<seq<Node>>)
    returns (e: Emission)
    requires Host(dst) in g
    ensures e == Q3TestRules(g, registered, dpid, src, dst, path)
  {
    if path.None? {
      e := Raise(NoPath);
      return;
    }
    var ip := Interior(path.value);
    if |ip| == 0 {
      e := Raise(EmptyInterior);
    } else if !ip[0].Switch? || !ip[|ip| - 1].Switch? {
      e := Raise(EndNotSwitch);
    } else if IsEven(ip[0].dpid + ip[|ip| - 1].dpid) {
      e := Q3TestRouteInterior(g, registered, ip, src, dst);
    } else {
      e := Emission([Drop(dpid, 2, src, dst)], [], None);
    }
  }

  /** The rule-compiling part of `_packet_in_handler`: the A2 apps compute the path with
      the breadth-first search and run their per-hop loops; the T2P2 apps build their one
      rule. */
  method CompilePacket(app: App, before: Graph, g: Graph, registered: set<nat>, dpid: nat,
                       src: string, dst: string, tcpDst: Option<nat>)
    returns (e: Emission, ghost path: Option<seq<Node>>)
    requires GraphValid(g) && Host(src) in g
    ensures IsA2(app) ==> PathChoice(g, src, dst, path)
    ensures !IsA2(app) ==> path.None?
    ensures e == PacketRules(app, before, g, registered, dpid, src, dst, tcpDst, path)
  {
    path := None;
    if !IsA2(app) || Host(dst) !in g {
      e := PacketRules(app, before, g, registered, dpid, src, dst, tcpDst, None);
      return;
    }
    var found := ShortestPath(g, Host(src), Host(dst));
    path := found;
    if app.Q1? {
      e := Q1Compile(g, dpid, src, dst, found);
    } else if app.Q3Test? {
      e := Q3TestCompile(g, registered, dpid, src, dst, found);
    } else {
      e := Q2Compile(g, registered, dpid, src, dst, found);
    }
  }

  /** Every rule the q2, q3 and q3test handlers send keeps table 0 to the goto default and
      (src, dst) drops. */
  lemma CompiledKeepsShape(app: App, before: Graph, g: Graph, registered: set<nat>, dpid: nat,
                           src: string, dst: string, tcpDst: Option<nat>, path: Option<seq<Node>>)
    requires KeepsDropShape(app)
    requires GraphValid(g) && Host(src) in g
    ensures forall f | f in PacketRules(app, before, g, registered, dpid, src, dst, tcpDst, path).flows ::
              ShapeCompatible(f, DropPriority(app))
  {
    var e := PacketRules(app, before, g, registered, dpid, src, dst, tcpDst, path);
    forall f | f in e.flows ensures ShapeCompatible(f, DropPriority(app)) {
      var drop := Drop(dpid, DropPriority(app), src, dst);
      if f != drop {
        assert Host(dst) in g && path.Some?;
        var ip := Interior(path.value);
        if app.Q3Test? {
          Q3TestRouteRulesInTableOne(g, registered, ip, src, dst, f);
        } else {
          var routes := Run(Q2Steps(g, registered, ip, src, dst));
          assert e.flows == routes.flows || e.flows == routes.flows + [drop];
          Q2RouteRulesInTableOne(g, registered, ip, src, dst, f);
        }
      }
    }
  }

  /** Every rule the apps other than group-table send only outputs, so a switch never
      refuses one for a missing group. */
  lemma PacketRulesOutputsOnly(app: App, before: Graph, g: Graph, registered: set<nat>, dpid: nat,
                               src: string, dst: string, tcpDst: Option<nat>, path: Option<seq<Node>>)
    requires !app.GroupTable?
    requires GraphValid(g) && Host(src) in g
    ensures forall f | f in PacketRules(app, before, g, registered, dpid, src, dst, tcpDst, path).flows ::
              OutputsOnly(f)
  {
    var e := PacketRules(app, before, g, registered, dpid, src, dst, tcpDst, path);
    forall f | f in e.flows ensures OutputsOnly(f) {
      match app {
        case Q1 =>
          Q1RulesOutputOnly(g, dpid, src, dst, path, f);
        case Q3Test =>
          if f != Drop(dpid, 2, src, dst) {
            Q3TestRouteRulesInTableOne(g, registered, Interior(path.value), src, dst, f);
          }
        case Q2 =>
          Q2RulesOutputOnly(g, registered, dpid, src, dst, path, f);
        case Q3 =>
          Q2RulesOutputOnly(g, registered, dpid, src, dst, path, f);
        case _ =>
      }
    }
  }

  /** What sending a handler's messages does to tables t and groups gt, beyond the message
      order: the apps other than group-table have every flow-mod added, and the groups
      stay failover groups, with group 1 present after a group-table packet to a known
      destination. */
  lemma PacketTablesAndGroups(app: App, before: Graph, g: Graph, registered: set<nat>, dpid: nat,
                              src: string, dst: string, tcpDst: Option<nat>, path: Option<seq<Node>>,
                              t: Fabric, gt: GroupFabric)
    requires GraphValid(g) && Host(src) in g
    requires OnlyFailoverGroup(gt)
    ensures var e := PacketRules(app, before, g, registered, dpid, src, dst, tcpDst, path);
            && (!app.GroupTable? ==> AdmitFlows(t, gt, e.flows) == InstallFlows(t, e.flows))
            && OnlyFailoverGroup(InstallGroups(gt, e.groups))
            && (app.GroupTable? && Host(src) in before && Host(dst) in g ==>
                  HasGroup(InstallGroups(gt, e.groups), dpid, FAILOVER_GROUP))
  {
    var e := PacketRules(app, before, g, registered, dpid, src, dst, tcpDst, path);
    if app.GroupTable? {
      if Host(src) in before {
        GroupInstalledOnce(gt, g, dpid, dst);
      }
    } else {
      PacketRulesOutputsOnly(app, before, g, registered, dpid, src, dst, tcpDst, path);
      AdmitFlowsNoMissingGroup(t, gt, e.flows);
    }
  }

  /** Every q2/q3 rule only outputs: the routes forward, the drop has no action. */
  lemma Q2RulesOutputOnly(g: Graph, registered: set<nat>, dpid: nat, src: string, dst: string,
                          path: Option<seq<Node>>, f: FlowMod)
    requires GraphValid(g) && Host(src) in g
    requires f in Q2Rules(g, registered, dpid, src, dst, path).flows
    ensures OutputsOnly(f)
  {
    if f != Drop(dpid, 1, src, dst) {
      var routes := Run(Q2Steps(g, registered, Interior(path.value), src, dst));
      assert f in routes.flows;
      Q2RouteRulesInTableOne(g, registered, Interior(path.value), src, dst, f);
    }
  }

  /** The `for link in link_list` loop of `get_topology_data`: each link adds its two
      directed edges, source side first. */
  method AddLinksLoop(g0: Graph, links: seq<Link>) returns (g: Graph)
    ensures g == AddLinks(g0, links)
  {
    g := g0;
    for i := 0 to |links|
      invariant g == AddLinks(g0, links[..i])
    {
      var l := links[i];
      g := AddEdge(g, Switch(l.srcDpid), Switch(l.dstDpid), Some(l.srcPort));
      g := AddEdge(g, Switch(l.dstDpid), Switch(l.srcDpid), Some(l.dstPort));
      assert links[..i + 1][..i] == links[..i];
    }
    assert links[..|links|] == links;
  }

  /** The first-sighting step of `_packet_in_handler`: an unseen source becomes a node
      with an edge from the switch carrying the port and an edge back without one. */
  method Observe(g0: Graph, dpid: nat, mac: string, port: nat) returns (g: Graph)
    ensures g == ObserveHost(g0, dpid, mac, port)
  {
    g := g0;
    if Host(mac) !in g {
      ObserveHostSteps(g, dpid, mac, port);
      g := AddNode(g, Host(mac));
      g := AddEdge(g, Switch(dpid), Host(mac), Some(port));
      g := AddEdge(g, Host(mac), Switch(dpid), None);
    }
  }

  class Controller {
    const app: App
    /** `self.net`. */
    var net: Graph
    /** The keys of `self.switches`. */
    var switches: set<nat>
    /** The keys of `self.datapaths`, in insertion order. */
    var datapaths: seq<nat>
    /** The flow entries the switches hold. */
    var tables: Fabric
    /** The group entries the switches hold. */
    var groups: GroupFabric

    ghost predicate Valid()
      reads this
    {
      && GraphValid(net)
      && Distinct(datapaths)
      && (KeepsDropShape(app) ==> FabricShape(tables, DropPriority(app)))
      && OnlyFailoverGroup(groups)
    }

    /** `__init__`: an empty graph and empty dictionaries. */
    constructor (app: App)
      ensures Valid() && this.app == app
      ensures net == map[] && switches == {} && datapaths == [] && tables == map[] && groups == map[]
    {
      this.app := app;
      net := map[];
      switches := {};
      datapaths := [];
      tables := map[];
      groups := map[];
      EmptyGraphValid();
    }

    /** `datapath.send_msg` of a flow-mod: the switch adds the entry (OFPFC_ADD), unless
        the entry applies a group the switch does not hold yet. */
    method Send(f: FlowMod)
      requires Valid()
      requires KeepsDropShape(app) ==> ShapeCompatible(f, DropPriority(app))
      modifies this`tables
      ensures Valid()
      ensures tables == AdmitFlow(old(tables), groups, f)
      ensures OutputsOnly(f) ==> tables == InstallFlow(old(tables), f)
    {
      if KeepsDropShape(app) {
        InstallKeepsShape(tables, f, DropPriority(app));
      }
      tables := AdmitFlow(tables, groups, f);
    }

    /** The flow-mods of one handler run, sent in order. */
    method SendAll(fs: seq<FlowMod>)
      requires Valid()
      requires KeepsDropShape(app) ==> forall f | f in fs :: ShapeCompatible(f, DropPriority(app))
      modifies this`tables
      ensures Valid()
      ensures tables == AdmitFlows(old(tables), groups, fs)
    {
      for i := 0 to |fs|
        invariant Valid()
        invariant tables == AdmitFlows(old(tables), groups, fs[..i])
      {
        assert fs[..i + 1][..i] == fs[..i];
        Send(fs[i]);
      }
      assert fs[..|fs|] == fs;
    }

    /** `datapath.send_msg` of the group-mods of one handler run, in order. */
    method SendGroups(ms: seq<GroupMod>)
      modifies this`groups
      ensures groups == InstallGroups(old(groups), ms)
    {
      for i := 0 to |ms|
        invariant groups == InstallGroups(old(groups), ms[..i])
      {
        assert ms[..i + 1][..i] == ms[..i];
        groups := InstallGroup(groups, ms[i]);
      }
      assert ms[..|ms|] == ms;
    }

    /** `_state_change_handler`: MAIN registers an id that is absent, DEAD unregisters one
        that is present; apps without the handler ignore the event. */
    method OnStateChange(id: nat, state: DispatcherState)
      requires Valid()
      modifies this`datapaths
      ensures Valid()
      ensures datapaths == if HasRegistry(app) then StateChange(old(datapaths), id, state) else old(datapaths)
    {
      if HasRegistry(app) {
        match state {
          case MainDispatcher =>
            if id !in datapaths {
              datapaths := datapaths + [id];
            }
          case DeadDispatcher =>
            if id in datapaths {
              datapaths := Unregister(datapaths, id);
            }
        }
      }
    }

    /** `get_topology_data`: every listed switch becomes a node, then each link adds its
        two directed edges. */
    method OnSwitchEnter(ids: seq<nat>, links: seq<Link>)
      requires Valid()
      modifies this`net
      ensures Valid()
      ensures net == AddLinks(AddSwitches(old(net), ids), links)
    {
      AddSwitchesValid(net, ids);
      ghost var start := AddSwitches(net, ids);
      AddLinksValid(start, links);
      var g := AddSwitches(net, ids);
      g := AddLinksLoop(g, links);
      net := g;
    }

    /** `switch_features_handler`: the A2 apps record the switch, then every app sends its
        table-miss defaults. */
    method OnSwitchFeatures(dpid: nat)
      requires Valid()
      modifies this`switches, this`tables
      ensures Valid()
      ensures switches == if IsA2(app) then old(switches) + {dpid} else old(switches)
      ensures tables == InstallFlows(old(tables), ConnectRules(app, dpid))
    {
      if IsA2(app) {
        switches := switches + {dpid};
      }
      var rules := ConnectRules(app, dpid);
      if TwoTable(app) {
        ghost var t0 := tables;
        Send(AddFlowGoto(dpid, 0, 0, EmptyMatch(), 1));
        assert rules[..1][..0] == [] && rules[..1] == [rules[0]];
        assert tables == InstallFlows(t0, rules[..1]);
        Send(AddFlow(dpid, 0, 1, EmptyMatch(), [ToController()]));
        assert rules[..|rules| - 1] == rules[..1];
      } else {
        Send(AddFlow(dpid, 0, 0, EmptyMatch(), [ToController()]));
        assert rules[..0] == [];
      }
    }

    /** `_packet_in_handler` for a packet from src to dst entering switch dpid on inPort,
        with its TCP destination port when it is a TCP packet: an unseen source is bound
        to the switch, then the app's rules are sent. fault is the exception that ended
        the handler, after the rules sent before it. */
    method OnPacketIn(dpid: nat, inPort: nat, src: string, dst: string, tcpDst: Option<nat>)
      returns (fault: Option<Fault>, ghost path: Option<seq<Node>>)
      requires Valid()
      modifies this`net, this`tables, this`groups
      ensures Valid()
      ensures net == ObserveHost(old(net), dpid, src, AttachPort(app, inPort))
      ensures IsA2(app) ==> PathChoice(net, src, dst, path)
      ensures var e := PacketRules(app, old(net), net, switches, dpid, src, dst, tcpDst, path);
              && tables == AdmitFlows(old(tables), old(groups), e.flows)
              && (!app.GroupTable? ==> tables == InstallFlows(old(tables), e.flows))
              && groups == InstallGroups(old(groups), e.groups)
              && fault == e.fault
      ensures app.GroupTable? && Host(src) in old(net) && Host(dst) in net ==> HasGroup(groups, dpid, FAILOVER_GROUP)
    {
      var before := net;
      ObserveHostValid(before, dpid, src, AttachPort(app, inPort));
      var g := Observe(before, dpid, src, AttachPort(app, inPort));
      net := g;
      var e;
      e, path := CompilePacket(app, before, g, switches, dpid, src, dst, tcpDst);
      if KeepsDropShape(app) {
        CompiledKeepsShape(app, before, net, switches, dpid, src, dst, tcpDst, path);
      }
      PacketTablesAndGroups(app, before, g, switches, dpid, src, dst, tcpDst, path, tables, groups);
      SendAll(e.flows);
      SendGroups(e.groups);
      fault := e.fault;
    }

    /** One pass of `_monitor`'s loop, reduced to the requests it sends: q3 asks switch 5
        for port statistics once any switch has connected, q3test walks every connected
        switch and asks only switch 5, and stats asks every registered datapath for flow
        statistics. The other apps have no monitor. */
    method MonitorTick() returns (r: Result<seq<StatsRequest>, Fault>)
      requires Valid()
      ensures app.Q3? ==> r == Q3Tick(switches)
      ensures app.Q3Test? ==> r == Ok(if MONITORED_SWITCH in switches then [PortStatsRequest(MONITORED_SWITCH)] else [])
      ensures app.Stats? ==> r.Ok? && |r.value| == |datapaths|
                             && (forall i | 0 <= i < |r.value| :: r.value[i] == FlowStatsRequest(datapaths[i]))
                             && forall id :: RequestsTo(r.value, id) == if id in datapaths then 1 else 0
      ensures !HasRegistry(app) ==> r == Ok([])
    {
      match app {
        case Q3 =>
          r := Q3Tick(switches);
        case Q3Test =>
          var reqs := Q3TestTick(switches);
          r := Ok(reqs);
        case Stats =>
          var reqs := StatsTick(datapaths);
          r := Ok(reqs);
        case _ =>
          r := Ok([]);
      }
    }
  }

  // ---------------------------------------------------------------------------
  // What the switches do with the installed rules
  // ---------------------------------------------------------------------------

  /** q2/q3: once a blocked pair's packet has been handled without an exception, a
      (src, dst) packet entering the packet-in switch is dropped in table 0, whatever
      the route rules put in table 1. */
  lemma Q2BlockedPairDropped(t: Fabric, g: Graph, registered: set<nat>, dpid: nat,
                             src: string, dst: string, path: Option<seq<Node>>, p: Packet)
    requires FabricShape(t, 1)
    requires GraphValid(g) && Host(src) in g && Host(dst) in g
    requires path.Some? ==> Run(Q2Steps(g, registered, Interior(path.value), src, dst)).fault.None?
    requires Blocked(Attachment(g, src), Attachment(g, dst))
    requires p.ethSrc == src && p.ethDst == dst
    ensures var t2 := InstallFlows(t, Q2Rules(g, registered, dpid, src, dst, path).flows);
            && dpid in t2 && FabricShape(t2, 1)
            && Process(t2[dpid], 0, p) == Execute([])
  {
    var fs := Q2Rules(g, registered, dpid, src, dst, path).flows;
    var t2 := InstallFlows(t, fs);
    var drop := Drop(dpid, 1, src, dst);
    var routes := if path.Some? then Run(Q2Steps(g, registered, Interior(path.value), src, dst)).flows else [];
    assert fs == routes + [drop];
    assert fs[..|fs| - 1] == routes;
    assert t2 == InstallFlow(InstallFlows(t, routes), drop);
    assert Entry(t2, dpid, KeyOf(drop)) == Some(Apply([]));
    forall f | f in fs ensures ShapeCompatible(f, 1) {
      if f != drop {
        Q2RouteRulesInTableOne(g, registered, Interior(path.value), src, dst, f);
      }
    }
    InstallAllKeepShape(t, fs, 1);
    DropPreempts(t2[dpid], 1, p);
  }

  /** No q2/q3 flow-mod for an admitted pair touches table 0. */
  lemma {:induction false} NoTableZeroWrite(fs: seq<FlowMod>, dpid: nat, k: FlowKey)
    requires forall f | f in fs :: f.table == 1
    requires k.table == 0
    ensures LastWrite(fs, dpid, k).None?
    decreases |fs|
  {
    if fs != [] {
      assert forall f | f in fs[..|fs| - 1] :: f in fs;
      NoTableZeroWrite(fs[..|fs| - 1], dpid, k);
    }
  }

  /** q2/q3: for an admitted pair whose packet-in switch has its defaults and no earlier
      drop for the pair, a (src, dst) packet there still leaves table 0 for table 1. */
  lemma Q2AdmittedPairReachesTableOne(t: Fabric, g: Graph, registered: set<nat>, dpid: nat,
                                      src: string, dst: string, path: Option<seq<Node>>, p: Packet)
    requires FabricShape(t, 1)
    requires dpid in t && MissKey(0) in t[dpid] && FlowKey(0, 1, PairMatch(src, dst)) !in t[dpid]
    requires GraphValid(g) && Host(src) in g && Host(dst) in g
    requires !Blocked(Attachment(g, src), Attachment(g, dst))
    requires p.ethSrc == src && p.ethDst == dst
    ensures var t2 := InstallFlows(t, Q2Rules(g, registered, dpid, src, dst, path).flows);
            && dpid in t2 && FabricShape(t2, 1)
            && Process(t2[dpid], 0, p) == Process(t2[dpid], 1, p)
  {
    var fs := Q2Rules(g, registered, dpid, src, dst, path).flows;
    var t2 := InstallFlows(t, fs);
    forall f | f in fs ensures f.table == 1 {
      Q2RouteRulesInTableOne(g, registered, Interior(path.value), src, dst, f);
    }
    InstallFlowsEntries(t, fs);
    NoTableZeroWrite(fs, dpid, MissKey(0));
    NoTableZeroWrite(fs, dpid, FlowKey(0, 1, PairMatch(src, dst)));
    assert Entry(t2, dpid, MissKey(0)) == Entry(t, dpid, MissKey(0));
    assert Entry(t2, dpid, FlowKey(0, 1, PairMatch(src, dst))) == Entry(t, dpid, FlowKey(0, 1, PairMatch(src, dst)));
    CompiledKeepsShape(Q2, g, g, registered, dpid, src, dst, None, path);
    InstallAllKeepShape(t, fs, 1);
    AdmittedReachesTableOne(t2[dpid], 1, p);
  }

  /** group-table: the handler sends the flow-mod applying group 1 before the group-mod
      that creates it. On a switch without the group the first packet's flow-mod is
      refused and only the group is added; the next packet's flow-mod is accepted. */
  lemma GroupFlowTakesTwoPackets(t: Fabric, gt: GroupFabric, g: Graph, dpid: nat, dst: string)
    requires Host(dst) in g
    requires OnlyFailoverGroup(gt) && !HasGroup(gt, dpid, FAILOVER_GROUP)
    ensures var e := GroupRules(g, dpid, dst);
            var gt1 := InstallGroups(gt, e.groups);
            && AdmitFlows(t, gt, e.flows) == t
            && HasGroup(gt1, dpid, FAILOVER_GROUP)
            && Entry(AdmitFlows(t, gt1, e.flows), dpid, FlowKey(0, 1, DstMatch(dst)))
               == Some(Apply([GroupAction(FAILOVER_GROUP)]))
  {
    var e := GroupRules(g, dpid, dst);
    var rule := e.flows[0];
    assert e.flows[..0] == [];
    assert NamesMissingGroup(gt, rule) by {
      assert GroupAction(FAILOVER_GROUP) in rule.instr.actions;
    }
    GroupInstalledOnce(gt, g, dpid, dst);
    var gt1 := InstallGroups(gt, e.groups);
    assert !NamesMissingGroup(gt1, rule);
  }

  /** topo-discovery: a packet whose source is already a node changes neither the graph
      nor any switch table; only a first sighting changes the graph. When the destination
      is a node too, `print(self.net[dpid])` raises KeyError exactly when the packet-in
      switch is not a node. */
  lemma TopoKnownSourceInert(t: Fabric, g: Graph, registered: set<nat>, dpid: nat, port: nat,
                             src: string, dst: string, tcpDst: Option<nat>, path: Option<seq<Node>>)
    requires GraphValid(g) && Host(src) in g
    ensures ObserveHost(g, dpid, src, port) == g
    ensures var e := PacketRules(TopoDiscovery, g, g, registered, dpid, src, dst, tcpDst, path);
            && e.flows == [] && e.groups == [] && InstallFlows(t, e.flows) == t
            && e.fault == (if Host(dst) in g && Switch(dpid) !in g then Some(NotInGraph(Switch(dpid))) else None)
  {
  }
}
