/**
 * The rule compilers of the packet-in handlers, one per app, as values: the flow-mods
 * and group-mods a handler sends, in order, and the Python exception that ends it
 * early, if any. A handler that raises has already sent the messages before the
 * raising statement, so an emission keeps them.
 */
module Compilers {
  import opened Outcomes
  import opened OpenFlow
  import opened Topology
  import opened Paths
  import opened Policy

  /** OFPXMT_OFB_IN_PHY_PORT of Ryu's ofproto_v1_3 (1): the A2 apps store it as the port
      of every switch-to-host edge. */
  const OFPXMT_OFB_IN_PHY_PORT: nat := 1

  /** The group id the group-table app installs and forwards to. */
  const FAILOVER_GROUP: nat := 1

  /** The exceptions a handler can raise. */
  datatype Fault =
    | NotRegistered(node: Node)        // KeyError on self.switches[...]
    | NotInGraph(node: Node)           // KeyError on self.net[...]
    | NoEdge(tail: Node, head: Node)   // KeyError on self.net[u][v]
    | NoPortAttr(tail: Node, head: Node) // KeyError on ...['port']
    | NoPath                           // NetworkXNoPath from nx.shortest_path
    | EmptyInterior                    // IndexError on shortestPath[0]
    | EndNotSwitch                     // TypeError on the sum of two interior nodes
    | UnboundActions                   // UnboundLocalError on actions.append
    | PastPathEnd                      // IndexError on path[idx+1]
    | NoEthDstField                    // KeyError on flow.match['eth_dst']
    | NoFirstInstruction               // IndexError on instructions[0]
    | NoActionsField                   // AttributeError on .actions of a goto instruction
    | NoFirstAction                    // IndexError on actions[0]
    | NoPortField                      // AttributeError on .port of an action that is not an output

  /** The messages one handler run sends, in order, and the exception that stopped it. */
  datatype Emission = Emission(flows: seq<FlowMod>, groups: seq<GroupMod>, fault: Option<Fault>)

  function Nothing(): Emission { Emission([], [], None) }

  function Raise(f: Fault): Emission { Emission([], [], Some(f)) }

  /** What one pass of a loop body sends, or the exception it raises. */
  type Step = Result<seq<FlowMod>, Fault>

  /** The emission of a run that had already sent flows before continuing as e. */
  function After(flows: seq<FlowMod>, e: Emission): Emission {
    Emission(flows + e.flows, e.groups, e.fault)
  }

  lemma AfterAfter(a: seq<FlowMod>, b: seq<FlowMod>, e: Emission)
    ensures After(a + b, e) == After(a, After(b, e))
  {
    assert (a + b) + e.flows == a + (b + e.flows);
  }

  /** A loop run pass by pass: the flow-mods of every pass up to the first that raises,
      and that pass's exception. */
  function Run(steps: seq<Step>): (e: Emission)
    ensures e.groups == []
    decreases |steps|
  {
    if steps == [] then Nothing()
    else if steps[0].Err? then Raise(steps[0].error)
    else
      var rest := Run(steps[1..]);
      Emission(steps[0].value + rest.flows, [], rest.fault)
  }

  /** A run raises exactly when one of its passes does. */
  lemma {:induction false} RunFaultFree(steps: seq<Step>)
    ensures Run(steps).fault.None? <==> forall j | 0 <= j < |steps| :: steps[j].Ok?
    decreases |steps|
  {
    if steps != [] {
      RunFaultFree(steps[1..]);
      assert forall j | 1 <= j < |steps| :: steps[j] == steps[1..][j - 1];
    }
  }

  /** Unfolding Run at position j, as a loop that has finished j passes sees it. */
  lemma RunAt(steps: seq<Step>, j: nat)
    requires j < |steps|
    ensures steps[j].Err? ==> Run(steps[j..]) == Raise(steps[j].error)
    ensures steps[j].Ok? ==>
              Run(steps[j..]) == Emission(steps[j].value + Run(steps[j + 1..]).flows, [], Run(steps[j + 1..]).fault)
  {
    assert steps[j..][1..] == steps[j + 1..];
  }

  /** When every pass sends one flow-mod and none raises, the run sends exactly those,
      in loop order. */
  lemma {:induction false} RunSingles(steps: seq<Step>)
    requires forall j | 0 <= j < |steps| :: steps[j].Ok? && |steps[j].value| == 1
    ensures Run(steps).fault.None?
    ensures |Run(steps).flows| == |steps|
    ensures forall j | 0 <= j < |steps| :: Run(steps).flows[j] == steps[j].value[0]
    decreases |steps|
  {
    if steps != [] {
      RunSingles(steps[1..]);
      forall j | 0 <= j < |steps| ensures Run(steps).flows[j] == steps[j].value[0] {
        if j > 0 {
          assert steps[1..][j - 1] == steps[j];
        }
      }
    }
  }

  /** A pass that raises ends the run: what the earlier passes sent stays sent, and the
      run reports that pass's exception. */
  lemma {:induction false} RunStopsAt(steps: seq<Step>, i: nat)
    requires i < |steps| && steps[i].Err?
    requires forall j | 0 <= j < i :: steps[j].Ok?
    ensures Run(steps) == Emission(Run(steps[..i]).flows, [], Some(steps[i].error))
    decreases i
  {
    if i > 0 {
      RunStopsAt(steps[1..], i - 1);
      assert steps[1..][..i - 1] == steps[..i][1..];
    }
  }

  /** Every flow-mod a run sends comes from one of its passes. */
  lemma {:induction false} RunFlowsFromSteps(steps: seq<Step>, f: FlowMod)
    requires f in Run(steps).flows
    ensures exists j | 0 <= j < |steps| :: steps[j].Ok? && f in steps[j].value
    decreases |steps|
  {
    if f !in steps[0].value {
      RunFlowsFromSteps(steps[1..], f);
      var j :| 0 <= j < |steps[1..]| && steps[1..][j].Ok? && f in steps[1..][j].value;
      assert steps[j + 1] == steps[1..][j];
    }
  }

  /** A run whose passes all raise nothing and send nothing sends nothing. */
  lemma {:induction false} RunAllEmpty(steps: seq<Step>)
    requires forall j | 0 <= j < |steps| :: steps[j] == Ok([])
    ensures Run(steps) == Nothing()
    decreases |steps|
  {
    if steps != [] {
      assert forall j | 0 <= j < |steps[1..]| :: steps[1..][j] == steps[j + 1];
      RunAllEmpty(steps[1..]);
    }
  }

  /** A run whose passes all raise nothing and send nothing except pass i sends what
      pass i sends. */
  lemma {:induction false} RunOnlyAt(steps: seq<Step>, i: nat)
    requires i < |steps| && steps[i].Ok?
    requires forall j | 0 <= j < |steps| && j != i :: steps[j] == Ok([])
    ensures Run(steps) == Emission(steps[i].value, [], None)
    decreases i
  {
    assert forall j | 0 <= j < |steps[1..]| :: steps[1..][j] == steps[j + 1];
    if i == 0 {
      RunAllEmpty(steps[1..]);
    } else {
      RunOnlyAt(steps[1..], i - 1);
    }
  }

  /** `self.net[u][v]['port']`: the port attribute of edge u -> v. */
  function PortToward(g: Graph, u: Node, v: Node): (r: Result<nat, Fault>)
    ensures r.Ok? <==> u in g && v in g[u] && g[u][v].Some?
    ensures r.Ok? ==> Some(r.value) == g[u][v]
  {
    if u !in g then Err(NotInGraph(u))
    else if v !in g[u] then Err(NoEdge(u, v))
    else if g[u][v].None? then Err(NoPortAttr(u, v))
    else Ok(g[u][v].value)
  }

  /** Along an edge out of a switch of a valid graph the port lookup succeeds. */
  lemma PortTowardSwitchEdge(g: Graph, u: Node, v: Node)
    requires GraphValid(g)
    requires u in g && v in g[u] && u.Switch?
    ensures PortToward(g, u, v) == Ok(g[u][v].value)
  {
  }

  /** `path.index(x)`: the first position of x. */
  function IndexOf(s: seq<Node>, x: Node): (i: nat)
    requires x in s
    ensures i < |s| && s[i] == x
    ensures forall k | 0 <= k < i :: s[k] != x
  {
    if s[0] == x then 0 else 1 + IndexOf(s[1..], x)
  }

  /** On a sequence without repeats, `index` finds each element at its own position. */
  lemma IndexOfDistinct(s: seq<Node>, j: nat)
    requires j < |s|
    requires forall a, b | 0 <= a < b < |s| :: s[a] != s[b]
    ensures IndexOf(s, s[j]) == j
  {
  }

  /** The empty-action drop rule `OFPMatch(eth_dst=dst, eth_src=src)` in table 0. */
  function Drop(dpid: nat, priority: nat, src: string, dst: string): FlowMod {
    FlowMod(dpid, 0, priority, PairMatch(src, dst), Apply([]))
  }

  // ---------------------------------------------------------------------------
  // A2/q2.py and A2/q3.py: interior-path routing in table 1, parity drop in table 0
  // ---------------------------------------------------------------------------

  /** The hop after interior switch sw: the next interior switch, or dst after the last
      one, found through `path.index(switch_id)`. */
  function Q2Next(ip: seq<Node>, sw: Node, dst: string): Node
    requires sw in ip
  {
    var idx := IndexOf(ip, sw);
    if idx == |ip| - 1 then Host(dst) else ip[idx + 1]
  }

  /** One pass of `for switch_id in path`: look the switch up in `self.switches`, find
      the port toward the next hop, send a priority-1 table-1 rule for (src, dst). */
  function Q2Hop(g: Graph, registered: set<nat>, ip: seq<Node>, src: string, dst: string, j: nat): Step
    requires j < |ip|
  {
    var sw := ip[j];
    if !sw.Switch? || sw.dpid !in registered then Err(NotRegistered(sw))
    else
      match PortToward(g, sw, Q2Next(ip, sw, dst))
      case Err(f) => Err(f)
      case Ok(port) => Ok([FlowMod(sw.dpid, 1, 1, PairMatch(src, dst), Apply([Out(port)]))])
  }

  function Q2Steps(g: Graph, registered: set<nat>, ip: seq<Node>, src: string, dst: string): (steps: seq<Step>)
    ensures |steps| == |ip|
    ensures forall j | 0 <= j < |ip| :: steps[j] == Q2Hop(g, registered, ip, src, dst, j)
  {
    seq(|ip|, j requires 0 <= j < |ip| => Q2Hop(g, registered, ip, src, dst, j))
  }

  /** The q2/q3 per-hop loop over the interior path. */
  method Q2RouteInterior(g: Graph, registered: set<nat>, ip: seq<Node>, src: string, dst: string)
    returns (e: Emission)
    ensures e == Run(Q2Steps(g, registered, ip, src, dst))
  {
    ghost var steps := Q2Steps(g, registered, ip, src, dst);
    var flows: seq<FlowMod> := [];
    var j := 0;
    while j < |ip|
      invariant 0 <= j <= |ip|
      invariant Run(steps) == After(flows, Run(steps[j..]))
    {
      RunAt(steps, j);
      var sw := ip[j];
      if !sw.Switch? || sw.dpid !in registered {
        assert steps[j] == Err(NotRegistered(sw));
        return After(flows, Raise(NotRegistered(sw)));
      }
      var idx := IndexOf(ip, sw);
      var next := if idx == |ip| - 1 then Host(dst) else ip[idx + 1];
      var port := PortToward(g, sw, next);
      if port.Err? {
        assert steps[j] == Err(port.error);
        return After(flows, Raise(port.error));
      }
      var rule := FlowMod(sw.dpid, 1, 1, PairMatch(src, dst), Apply([Out(port.value)]));
      assert steps[j] == Ok([rule]);
      AfterAfter(flows, [rule], Run(steps[j + 1..]));
      flows := flows + [rule];
      j := j + 1;
    }
    assert steps[j..] == [];
    e := After(flows, Nothing());
  }

  /** q2/q3 `_packet_in_handler` once the source is a node: nothing unless dst is a node;
      then the interior routes when a path exists (path is None when `nx.has_path` is
      false); then, unless routing raised, the drop on the packet-in switch when the
      attachment switches differ in parity. */
  function Q2Rules(g: Graph, registered: set<nat>, dpid: nat, src: string, dst: string,
                   path: Option<seq<Node>>): (e: Emission)
    requires GraphValid(g) && Host(src) in g
    ensures e.groups == []
  {
    if Host(dst) !in g then Nothing()
    else
      var routes := if path.Some? then Run(Q2Steps(g, registered, Interior(path.value), src, dst)) else Nothing();
      if routes.fault.None? && Blocked(Attachment(g, src), Attachment(g, dst))
      then After(routes.flows, Emission([Drop(dpid, 1, src, dst)], [], None))
      else routes
  }

  /** The next hop of interior position j: the next interior node, or dst after the last. */
  function NextHop(ip: seq<Node>, dst: string, j: nat): Node
    requires j < |ip|
  {
    if j == |ip| - 1 then Host(dst) else ip[j + 1]
  }

  /** Interior position j of a path is path position j + 1, and its next hop is path
      position j + 2; on a shortest path between hosts the interior has no repeats and
      holds switches only. */
  lemma InteriorOfShortest(g: Graph, src: string, dst: string, p: seq<Node>, j: nat)
    requires GraphValid(g)
    requires IsShortestPath(g, Host(src), Host(dst), p)
    requires j < |Interior(p)|
    ensures Interior(p)[j] == p[j + 1] && NextHop(Interior(p), dst, j) == p[j + 2]
    ensures Interior(p)[j].Switch? && Interior(p)[j] in g
    ensures NextHop(Interior(p), dst, j) in g[Interior(p)[j]]
    ensures forall a, b | 0 <= a < b < |Interior(p)| :: Interior(p)[a] != Interior(p)[b]
  {
    var ip := Interior(p);
    InteriorSwitches(g, Host(src), Host(dst), p);
    ShortestPathSimple(g, Host(src), Host(dst), p);
    assert ip[j] in ip;
    forall a, b | 0 <= a < b < |ip| ensures ip[a] != ip[b] {
      assert ip[a] == p[a + 1] && ip[b] == p[b + 1];
    }
  }

  /** On a shortest path, the q2 pass for interior switch j, when that switch is
      registered, sends one priority-1 table-1 (src, dst) rule whose port is that of the
      edge toward the next hop. */
  lemma Q2HopOnShortestPath(g: Graph, registered: set<nat>, src: string, dst: string, p: seq<Node>, j: nat)
    requires GraphValid(g)
    requires IsShortestPath(g, Host(src), Host(dst), p)
    requires j < |Interior(p)| && Interior(p)[j].Switch? && Interior(p)[j].dpid in registered
    ensures var ip := Interior(p);
            var next := NextHop(ip, dst, j);
            && ip[j] in g && next in g[ip[j]] && g[ip[j]][next].Some?
            && Q2Hop(g, registered, ip, src, dst, j)
               == Ok([FlowMod(ip[j].dpid, 1, 1, PairMatch(src, dst), Apply([Out(g[ip[j]][next].value)]))])
  {
    var ip := Interior(p);
    InteriorOfShortest(g, src, dst, p, j);
    IndexOfDistinct(ip, j);
    PortTowardSwitchEdge(g, ip[j], NextHop(ip, dst, j));
  }

  /** With every interior switch registered, q2/q3 routing on a shortest path raises
      nothing and sends exactly one rule per interior switch, in path order, each
      forwarding (src, dst) on the edge toward the next hop. */
  lemma Q2RoutesOnShortestPath(g: Graph, registered: set<nat>, src: string, dst: string, p: seq<Node>)
    requires GraphValid(g)
    requires IsShortestPath(g, Host(src), Host(dst), p)
    requires forall n | n in Interior(p) :: n.Switch? && n.dpid in registered
    ensures var e := Run(Q2Steps(g, registered, Interior(p), src, dst));
            && e.fault.None? && |e.flows| == |Interior(p)|
            && forall j | 0 <= j < |Interior(p)| ::
                 var next := NextHop(Interior(p), dst, j);
                 && Interior(p)[j] in g && next in g[Interior(p)[j]] && g[Interior(p)[j]][next].Some?
                 && e.flows[j] == FlowMod(Interior(p)[j].dpid, 1, 1, PairMatch(src, dst),
                                          Apply([Out(g[Interior(p)[j]][next].value)]))
  {
    var ip := Interior(p);
    var steps := Q2Steps(g, registered, ip, src, dst);
    forall j | 0 <= j < |ip|
      ensures var next := NextHop(ip, dst, j);
              && ip[j] in g && next in g[ip[j]] && g[ip[j]][next].Some?
              && steps[j] == Ok([FlowMod(ip[j].dpid, 1, 1, PairMatch(src, dst), Apply([Out(g[ip[j]][next].value)]))])
    {
      assert ip[j] in ip;
      Q2HopOnShortestPath(g, registered, src, dst, p, j);
    }
    RunSingles(steps);
  }

  /** When interior switch i is the first one missing from `self.switches`, routing
      raises a KeyError there, after the rules of the switches before it were sent. */
  lemma Q2RoutesStopAtUnregistered(g: Graph, registered: set<nat>, ip: seq<Node>, src: string, dst: string, i: nat)
    requires i < |ip| && !(ip[i].Switch? && ip[i].dpid in registered)
    requires forall j | 0 <= j < i :: Q2Hop(g, registered, ip, src, dst, j).Ok?
    ensures Run(Q2Steps(g, registered, ip, src, dst))
            == Emission(Run(Q2Steps(g, registered, ip, src, dst)[..i]).flows, [], Some(NotRegistered(ip[i])))
  {
    RunStopsAt(Q2Steps(g, registered, ip, src, dst), i);
  }

  /** Every q2/q3 route rule is a priority-1 table-1 rule for (src, dst). */
  lemma Q2RouteRulesInTableOne(g: Graph, registered: set<nat>, ip: seq<Node>, src: string, dst: string, f: FlowMod)
    requires f in Run(Q2Steps(g, registered, ip, src, dst)).flows
    ensures f.table == 1 && f.priority == 1 && f.pattern == PairMatch(src, dst) && f.instr.Apply?
            && OutputsOnly(f)
  {
    RunFlowsFromSteps(Q2Steps(g, registered, ip, src, dst), f);
  }

  /** For a known destination and routing that raised nothing, q2/q3 send the routes
      whatever the parity, and add the table-0 drop on the packet-in switch exactly when
      the attachment switches differ in parity. */
  lemma Q2DropIffBlocked(g: Graph, registered: set<nat>, dpid: nat, src: string, dst: string, path: Option<seq<Node>>)
    requires GraphValid(g) && Host(src) in g && Host(dst) in g
    requires path.Some? ==> Run(Q2Steps(g, registered, Interior(path.value), src, dst)).fault.None?
    ensures var e := Q2Rules(g, registered, dpid, src, dst, path);
            var routes := if path.Some? then Run(Q2Steps(g, registered, Interior(path.value), src, dst)).flows else [];
            && e.fault.None?
            && e.flows[..|routes|] == routes
            && (Drop(dpid, 1, src, dst) in e.flows <==> Blocked(Attachment(g, src), Attachment(g, dst)))
            && |e.flows| == |routes| + (if Blocked(Attachment(g, src), Attachment(g, dst)) then 1 else 0)
  {
    var e := Q2Rules(g, registered, dpid, src, dst, path);
    var routes := if path.Some? then Run(Q2Steps(g, registered, Interior(path.value), src, dst)).flows else [];
    if Drop(dpid, 1, src, dst) in routes {
      Q2RouteRulesInTableOne(g, registered, Interior(path.value), src, dst, Drop(dpid, 1, src, dst));
    }
    assert Drop(dpid, 1, src, dst) !in routes;
  }

  /** q2/q3 compile nothing for a destination that is not a node. */
  lemma Q2UnknownDestination(g: Graph, registered: set<nat>, dpid: nat, src: string, dst: string, path: Option<seq<Node>>)
    requires GraphValid(g) && Host(src) in g && Host(dst) !in g
    ensures Q2Rules(g, registered, dpid, src, dst, path) == Nothing()
  {
  }

  // ---------------------------------------------------------------------------
  // A2/q3test.py: path-end parity, per-hop loop with a manual index and an action
  // list appended in place
  // ---------------------------------------------------------------------------

  /** The action list pass j of the q3test loop sends. A switch that is not last
      outputs toward the next interior switch; the last one appends
      `OFPActionOutput(1)` in place to the list left by the pass before, so with no pass
      before `actions` is unbound. */
  function Q3TestActions(g: Graph, ip: seq<Node>, j: nat): (r: Result<seq<Action>, Fault>)
    requires j < |ip|
    ensures r.Ok? ==> r.value != [] && forall a | a in r.value :: a.Output?
  {
    if j != |ip| - 1 then
      match PortToward(g, ip[j], ip[j + 1])
      case Err(f) => Err(f)
      case Ok(port) => Ok([Out(port)])
    else if j == 0 then Err(UnboundActions)
    else
      match Q3TestActions(g, ip, j - 1)
      case Err(f) => Err(f)
      case Ok(a) => Ok(a + [Out(1)])
  }

  /** One pass of the q3test loop: look the switch up in `self.switches`, then send a
      priority-1 table-1 (src, dst) rule with the pass's action list. */
  function Q3TestHop(g: Graph, registered: set<nat>, ip: seq<Node>, src: string, dst: string, j: nat): Step
    requires j < |ip|
  {
    var sw := ip[j];
    if !sw.Switch? || sw.dpid !in registered then Err(NotRegistered(sw))
    else
      match Q3TestActions(g, ip, j)
      case Err(f) => Err(f)
      case Ok(a) => Ok([FlowMod(sw.dpid, 1, 1, PairMatch(src, dst), Apply(a))])
  }

  function Q3TestSteps(g: Graph, registered: set<nat>, ip: seq<Node>, src: string, dst: string): (steps: seq<Step>)
    ensures |steps| == |ip|
    ensures forall j | 0 <= j < |ip| :: steps[j] == Q3TestHop(g, registered, ip, src, dst, j)
  {
    seq(|ip|, j requires 0 <= j < |ip| => Q3TestHop(g, registered, ip, src, dst, j))
  }

  /** The q3test forwarding loop, `for i in shortestPath` with the counter `index`;
      `actions` and `match` are None while still unbound. */
  method Q3TestRouteInterior(g: Graph, registered: set<nat>, ip: seq<Node>, src: string, dst: string)
    returns (e: Emission)
    ensures e == Run(Q3TestSteps(g, registered, ip, src, dst))
  {
    ghost var steps := Q3TestSteps(g, registered, ip, src, dst);
    var flows: seq<FlowMod> := [];
    var index := 0;
    var actions: Option<seq<Action>> := None;
    var pattern: Option<Match> := None;
    while index < |ip|
      invariant 0 <= index <= |ip|
      invariant Run(steps) == After(flows, Run(steps[index..]))
      invariant actions.Some? <==> pattern.Some?
      invariant index == 0 ==> actions.None?
      invariant 0 < index < |ip| ==>
                  && Q3TestActions(g, ip, index - 1).Ok?
                  && actions == Some(Q3TestActions(g, ip, index - 1).value)
                  && pattern == Some(PairMatch(src, dst))
    {
      RunAt(steps, index);
      var sw := ip[index];
      if !sw.Switch? || sw.dpid !in registered {
        assert steps[index] == Err(NotRegistered(sw));
        return After(flows, Raise(NotRegistered(sw)));
      }
      if index != |ip| - 1 {
        var port := PortToward(g, sw, ip[index + 1]);
        if port.Err? {
          assert steps[index] == Err(port.error);
          return After(flows, Raise(port.error));
        }
        pattern := Some(PairMatch(src, dst));
        actions := Some([Out(port.value)]);
      }
      if index == |ip| - 1 {
        if actions.None? {
          assert steps[index] == Err(UnboundActions);
          return After(flows, Raise(UnboundActions));
        }
        actions := Some(actions.value + [Out(1)]);
      }
      assert Q3TestActions(g, ip, index) == Ok(actions.value);
      var rule := FlowMod(sw.dpid, 1, 1, pattern.value, Apply(actions.value));
      assert steps[index] == Ok([rule]);
      AfterAfter(flows, [rule], Run(steps[index + 1..]));
      flows := flows + [rule];
      index := index + 1;
    }
    assert steps[index..] == [];
    e := After(flows, Nothing());
  }

  /** Every q3test route rule is a priority-1 table-1 rule for (src, dst). */
  lemma Q3TestRouteRulesInTableOne(g: Graph, registered: set<nat>, ip: seq<Node>, src: string, dst: string, f: FlowMod)
    requires f in Run(Q3TestSteps(g, registered, ip, src, dst)).flows
    ensures f.table == 1 && f.priority == 1 && f.pattern == PairMatch(src, dst) && f.instr.Apply?
            && OutputsOnly(f)
  {
    RunFlowsFromSteps(Q3TestSteps(g, registered, ip, src, dst), f);
  }

  /** q3test `_packet_in_handler` once the source is a node: nothing unless dst is a
      node; NetworkXNoPath when no path exists (path is None); an exception when the
      interior is empty or an end of it is not a switch; forwarding rules in table 1 when
      the interior's end ids have an even sum, else a single priority-2 drop in table 0
      on the packet-in switch. */
  function Q3TestRules(g: Graph, registered: set<nat>, dpid: nat, src: string, dst: string,
                       path: Option<seq<Node>>): (e: Emission)
    ensures e.groups == []
  {
    if Host(dst) !in g then Nothing()
    else if path.None? then Raise(NoPath)
    else
      var ip := Interior(path.value);
      match EndsSumEven(ip)
      case None => Raise(if |ip| == 0 then EmptyInterior else EndNotSwitch)
      case Some(even) =>
        if even then Run(Q3TestSteps(g, registered, ip, src, dst))
        else Emission([Drop(dpid, 2, src, dst)], [], None)
  }

  /** A packet to oneself: the shortest path is the host alone, its interior is empty,
      and `shortestPath[0]` raises an IndexError before any rule is sent. */
  lemma Q3TestSameHost(g: Graph, registered: set<nat>, dpid: nat, h: string, p: seq<Node>)
    requires GraphValid(g) && Host(h) in g
    requires IsShortestPath(g, Host(h), Host(h), p)
    ensures Q3TestRules(g, registered, dpid, h, h, Some(p)) == Raise(EmptyInterior)
  {
    HostPathShape(g, h, h, p);
  }

  /** Between two distinct hosts whose attachment switches differ in parity, q3test sends
      exactly the priority-2 drop on the packet-in switch and no forwarding rule. */
  lemma Q3TestBlocked(g: Graph, registered: set<nat>, dpid: nat, src: string, dst: string, p: seq<Node>)
    requires GraphValid(g) && Host(src) in g && Host(dst) in g && src != dst
    requires IsShortestPath(g, Host(src), Host(dst), p)
    requires Blocked(Attachment(g, src), Attachment(g, dst))
    ensures Q3TestRules(g, registered, dpid, src, dst, Some(p)) == Emission([Drop(dpid, 2, src, dst)], [], None)
  {
    EndsSumEvenIsNotBlocked(g, src, dst, p);
  }

  /** Two hosts on one registered switch: the interior is that switch alone, the sum test
      passes, and `actions.append` raises UnboundLocalError before any rule is sent. */
  lemma Q3TestSingleSwitch(g: Graph, registered: set<nat>, dpid: nat, src: string, dst: string, p: seq<Node>)
    requires GraphValid(g) && Host(src) in g && Host(dst) in g && src != dst
    requires IsShortestPath(g, Host(src), Host(dst), p)
    requires |Interior(p)| == 1 && Interior(p)[0].Switch? && Interior(p)[0].dpid in registered
    ensures Q3TestRules(g, registered, dpid, src, dst, Some(p)) == Raise(UnboundActions)
  {
    HostPathShape(g, src, dst, p);
    IsEvenSum(Interior(p)[0].dpid, Interior(p)[0].dpid);
    assert Q3TestSteps(g, registered, Interior(p), src, dst)[0] == Err(UnboundActions);
  }

  /** The rules q3test sends along an interior ip of at least two switches: one table-1
      (src, dst) rule per switch in path order; each but the last forwards on the port
      of the edge toward the next switch, and the last repeats the previous rule's
      action list followed by output 1. */
  predicate Q3TestChain(g: Graph, ip: seq<Node>, src: string, dst: string, flows: seq<FlowMod>) {
    && |ip| >= 2 && |flows| == |ip|
    && (forall n | n in ip :: n.Switch?)
    && (forall j | 0 <= j < |ip| - 1 ::
          && PortToward(g, ip[j], ip[j + 1]).Ok?
          && flows[j] == FlowMod(ip[j].dpid, 1, 1, PairMatch(src, dst), Apply([Out(PortToward(g, ip[j], ip[j + 1]).value)])))
    && flows[|ip| - 2].instr.Apply?
    && flows[|ip| - 1] == FlowMod(ip[|ip| - 1].dpid, 1, 1, PairMatch(src, dst), Apply(flows[|ip| - 2].instr.actions + [Out(1)]))
  }

  /** When every non-last pass finds its port, every pass has an action list: the
      output toward the next switch, and on the last pass the list before it followed
      by output 1. */
  lemma Q3TestActionsBound(g: Graph, ip: seq<Node>, j: nat)
    requires 2 <= |ip| && j < |ip|
    requires forall k | 0 <= k < |ip| - 1 :: PortToward(g, ip[k], ip[k + 1]).Ok?
    ensures Q3TestActions(g, ip, j).Ok?
    ensures j < |ip| - 1 ==> Q3TestActions(g, ip, j) == Ok([Out(PortToward(g, ip[j], ip[j + 1]).value)])
    ensures j == |ip| - 1 ==> Q3TestActions(g, ip, j) == Ok(Q3TestActions(g, ip, j - 1).value + [Out(1)])
  {
    if j == |ip| - 1 {
      assert PortToward(g, ip[j - 1], ip[j]).Ok?;
    }
  }

  /** When every interior switch is registered and every non-last pass finds its port,
      the q3test loop raises nothing and sends one rule per pass carrying that pass's
      action list. */
  lemma Q3TestRunAllPasses(g: Graph, registered: set<nat>, ip: seq<Node>, src: string, dst: string)
    requires |ip| >= 2
    requires forall n | n in ip :: n.Switch? && n.dpid in registered
    requires forall j | 0 <= j < |ip| - 1 :: PortToward(g, ip[j], ip[j + 1]).Ok?
    ensures var e := Run(Q3TestSteps(g, registered, ip, src, dst));
            && e.fault.None? && |e.flows| == |ip|
            && (forall j | 0 <= j < |ip| ::
                  && Q3TestActions(g, ip, j).Ok?
                  && e.flows[j] == FlowMod(ip[j].dpid, 1, 1, PairMatch(src, dst), Apply(Q3TestActions(g, ip, j).value)))
  {
    var steps := Q3TestSteps(g, registered, ip, src, dst);
    forall j | 0 <= j < |ip|
      ensures Q3TestActions(g, ip, j).Ok?
      ensures steps[j] == Ok([FlowMod(ip[j].dpid, 1, 1, PairMatch(src, dst), Apply(Q3TestActions(g, ip, j).value))])
    {
      assert ip[j] in ip;
      Q3TestActionsBound(g, ip, j);
    }
    RunSingles(steps);
  }

  /** One rule per pass carrying that pass's action list is exactly the forwarding
      chain. */
  lemma Q3TestChainOfActions(g: Graph, ip: seq<Node>, src: string, dst: string, flows: seq<FlowMod>)
    requires |ip| >= 2 && |flows| == |ip|
    requires forall n | n in ip :: n.Switch?
    requires forall j | 0 <= j < |ip| - 1 :: PortToward(g, ip[j], ip[j + 1]).Ok?
    requires forall j | 0 <= j < |ip| ::
               && Q3TestActions(g, ip, j).Ok?
               && flows[j] == FlowMod(ip[j].dpid, 1, 1, PairMatch(src, dst), Apply(Q3TestActions(g, ip, j).value))
    ensures Q3TestChain(g, ip, src, dst, flows)
  {
    forall j | 0 <= j < |ip| - 1
      ensures flows[j] == FlowMod(ip[j].dpid, 1, 1, PairMatch(src, dst), Apply([Out(PortToward(g, ip[j], ip[j + 1]).value)]))
    {
      Q3TestActionsBound(g, ip, j);
    }
    Q3TestActionsBound(g, ip, |ip| - 1);
  }

  /** Between two distinct hosts whose attachment switches agree in parity, with an
      interior of at least two switches all registered, q3test raises nothing and sends
      the forwarding chain along the interior, the last rule built by the in-place
      append of `actions`. */
  lemma Q3TestForwarding(g: Graph, registered: set<nat>, dpid: nat, src: string, dst: string, p: seq<Node>)
    requires GraphValid(g) && Host(src) in g && Host(dst) in g && src != dst
    requires IsShortestPath(g, Host(src), Host(dst), p)
    requires !Blocked(Attachment(g, src), Attachment(g, dst))
    requires |Interior(p)| >= 2
    requires forall n | n in Interior(p) :: n.Switch? && n.dpid in registered
    ensures Q3TestRules(g, registered, dpid, src, dst, Some(p)).fault.None?
    ensures Q3TestChain(g, Interior(p), src, dst, Q3TestRules(g, registered, dpid, src, dst, Some(p)).flows)
  {
    var ip := Interior(p);
    EndsSumEvenIsNotBlocked(g, src, dst, p);
    assert Q3TestRules(g, registered, dpid, src, dst, Some(p)) == Run(Q3TestSteps(g, registered, ip, src, dst));
    forall j | 0 <= j < |ip| - 1
      ensures PortToward(g, ip[j], ip[j + 1]).Ok?
    {
      InteriorOfShortest(g, src, dst, p, j);
    }
    Q3TestRunAllPasses(g, registered, ip, src, dst);
    Q3TestChainOfActions(g, ip, src, dst, Run(Q3TestSteps(g, registered, ip, src, dst)).flows);
  }

  // ---------------------------------------------------------------------------
  // A2/q1.py: single-table drop or route, with mirroring at the path's ends
  // ---------------------------------------------------------------------------

  /** One pass of `for idx, switch in enumerate(path)`: only the packet-in switch sends
      a rule, forwarding `eth_dst=dst` toward `path[idx+1]`, and also on port 1 at
      position 1 or `len(path)-2`. */
  function Q1Hop(g: Graph, dpid: nat, path: seq<Node>, dst: string, idx: nat): Step
    requires idx < |path|
  {
    if path[idx] != Switch(dpid) then Ok([])
    else if idx + 1 >= |path| then Err(PastPathEnd)
    else
      match PortToward(g, path[idx], path[idx + 1])
      case Err(f) => Err(f)
      case Ok(port) => Ok([FlowMod(dpid, 0, 1, DstMatch(dst), Apply(Q1Actions(port, idx, |path|)))])
  }

  /** The q1 action list at position idx of a path of n nodes: the output, and a copy on
      port 1 at the first or last switch of a host-to-host path. */
  function Q1Actions(port: nat, idx: nat, n: nat): seq<Action> {
    if idx == 1 || idx + 2 == n then [Out(port), Out(1)] else [Out(port)]
  }

  function Q1Steps(g: Graph, dpid: nat, path: seq<Node>, dst: string): (steps: seq<Step>)
    ensures |steps| == |path|
    ensures forall j | 0 <= j < |path| :: steps[j] == Q1Hop(g, dpid, path, dst, j)
  {
    seq(|path|, j requires 0 <= j < |path| => Q1Hop(g, dpid, path, dst, j))
  }

  /** The q1 `enumerate(path)` loop over the full path. */
  method Q1RouteAtSwitch(g: Graph, dpid: nat, path: seq<Node>, dst: string) returns (e: Emission)
    ensures e == Run(Q1Steps(g, dpid, path, dst))
  {
    ghost var steps := Q1Steps(g, dpid, path, dst);
    var flows: seq<FlowMod> := [];
    var idx := 0;
    while idx < |path|
      invariant 0 <= idx <= |path|
      invariant Run(steps) == After(flows, Run(steps[idx..]))
    {
      RunAt(steps, idx);
      var sent: seq<FlowMod> := [];
      if path[idx] == Switch(dpid) {
        if idx + 1 >= |path| {
          assert steps[idx] == Err(PastPathEnd);
          return After(flows, Raise(PastPathEnd));
        }
        var port := PortToward(g, path[idx], path[idx + 1]);
        if port.Err? {
          assert steps[idx] == Err(port.error);
          return After(flows, Raise(port.error));
        }
        sent := [FlowMod(dpid, 0, 1, DstMatch(dst), Apply(Q1Actions(port.value, idx, |path|)))];
      }
      assert steps[idx] == Ok(sent);
      AfterAfter(flows, sent, Run(steps[idx + 1..]));
      flows := flows + sent;
      idx := idx + 1;
    }
    assert steps[idx..] == [];
    e := After(flows, Nothing());
  }

  /** q1 `_packet_in_handler` once the source is a node: nothing unless dst is a node;
      only the priority-1 drop on the packet-in switch when the attachment switches
      differ in parity; otherwise, when a path exists, the routing loop. */
  function Q1Rules(g: Graph, dpid: nat, src: string, dst: string, path: Option<seq<Node>>): (e: Emission)
    requires GraphValid(g) && Host(src) in g
    ensures e.groups == []
  {
    if Host(dst) !in g then Nothing()
    else if Blocked(Attachment(g, src), Attachment(g, dst)) then Emission([Drop(dpid, 1, src, dst)], [], None)
    else if path.None? then Nothing()
    else Run(Q1Steps(g, dpid, path.value, dst))
  }

  /** Every q1 rule only outputs: it names no group. */
  lemma Q1RulesOutputOnly(g: Graph, dpid: nat, src: string, dst: string, path: Option<seq<Node>>, f: FlowMod)
    requires GraphValid(g) && Host(src) in g
    requires f in Q1Rules(g, dpid, src, dst, path).flows
    ensures OutputsOnly(f)
  {
    if Host(dst) in g && !Blocked(Attachment(g, src), Attachment(g, dst)) && path.Some? {
      RunFlowsFromSteps(Q1Steps(g, dpid, path.value, dst), f);
    }
  }

  /** A blocked pair gets the drop alone and no routing. */
  lemma Q1BlockedDropsOnly(g: Graph, dpid: nat, src: string, dst: string, path: Option<seq<Node>>)
    requires GraphValid(g) && Host(src) in g && Host(dst) in g
    requires Blocked(Attachment(g, src), Attachment(g, dst))
    ensures Q1Rules(g, dpid, src, dst, path) == Emission([Drop(dpid, 1, src, dst)], [], None)
  {
  }

  /** On a shortest path between hosts, q1 routing raises nothing; it sends no rule when
      the packet-in switch is not on the path, and otherwise one table-0 priority-1
      `eth_dst` rule on it, forwarding toward the next node of the path, mirrored to
      port 1 exactly when the switch is the attachment switch of the source or of the
      destination. */
  lemma Q1OnShortestPath(g: Graph, dpid: nat, src: string, dst: string, p: seq<Node>)
    requires GraphValid(g) && Host(src) in g && Host(dst) in g
    requires IsShortestPath(g, Host(src), Host(dst), p)
    ensures var e := Run(Q1Steps(g, dpid, p, dst));
            && e.fault.None?
            && (Switch(dpid) !in p ==> e.flows == [])
            && (Switch(dpid) in p ==>
                  var i := IndexOf(p, Switch(dpid));
                  var mirror := Switch(dpid) == Switch(Attachment(g, src)) || Switch(dpid) == Switch(Attachment(g, dst));
                  && i + 1 < |p| && p[i + 1] in g[p[i]] && g[p[i]][p[i + 1]].Some?
                  && e.flows == [FlowMod(dpid, 0, 1, DstMatch(dst),
                                         Apply(if mirror then [Out(g[p[i]][p[i + 1]].value), Out(1)]
                                               else [Out(g[p[i]][p[i + 1]].value)]))])
  {
    var steps := Q1Steps(g, dpid, p, dst);
    ShortestPathSimple(g, Host(src), Host(dst), p);
    if Switch(dpid) !in p {
      RunAllEmpty(steps);
    } else {
      var i := IndexOf(p, Switch(dpid));
      assert i + 1 < |p| by {
        assert p[|p| - 1] == Host(dst);
      }
      PortTowardSwitchEdge(g, p[i], p[i + 1]);
      HostPathShape(g, src, dst, p);
      if src != dst {
        assert (i == 1 || i == |p| - 2) <==> (p[i] == p[1] || p[i] == p[|p| - 2]);
      }
      RunOnlyAt(steps, i);
    }
  }
}
