/**
 * The controller's topology graph `self.net`: a directed graph whose nodes are
 * switches (datapath ids) and hosts (MAC addresses), and whose edges carry the
 * egress port of their source, as networkx's DiGraph with a `port` attribute.
 */
module Topology {
  import opened Outcomes

  datatype Node = Switch(dpid: nat) | Host(mac: string)

  /** Adjacency: for each node, its successors and the `port` attribute of the edge
      (None when the edge was added without one). */
  type Graph = map<Node, map<Node, Option<nat>>>

  /** The edge u -> v and its attribute, if the edge exists. */
  function Edge(g: Graph, u: Node, v: Node): Option<Option<nat>> {
    if u in g && v in g[u] then Some(g[u][v]) else None
  }

  /** add_node: a node already present keeps its edges. */
  function AddNode(g: Graph, n: Node): (r: Graph)
    ensures r.Keys == g.Keys + {n}
    ensures forall u, v :: Edge(r, u, v) == Edge(g, u, v)
  {
    if n in g then g else g[n := map[]]
  }

  /** add_nodes_from: every listed switch becomes a node; present nodes keep their edges. */
  function AddSwitches(g: Graph, ids: seq<nat>): (r: Graph)
    ensures r.Keys == g.Keys + set i | 0 <= i < |ids| :: Switch(ids[i])
    ensures forall u, v :: Edge(r, u, v) == Edge(g, u, v)
  {
    var added := set i | 0 <= i < |ids| :: Switch(ids[i]);
    map n | n in g.Keys + added :: if n in g then g[n] else map[]
  }

  /** add_edge(u, v, port=p) when p is Some, add_edge(u, v) when it is None: missing
      endpoints become nodes, a given port replaces the edge's old one, and an edge
      added without a port keeps the one it had. */
  function AddEdge(g: Graph, u: Node, v: Node, port: Option<nat>): (r: Graph)
    ensures r.Keys == g.Keys + {u, v}
    ensures Edge(r, u, v) == Some(if port.Some? || Edge(g, u, v).None? then port else Edge(g, u, v).value)
    ensures forall a, b :: (a != u || b != v) ==> Edge(r, a, b) == Edge(g, a, b)
  {
    var row := if u in g then g[u] else map[];
    var kept := if port.Some? || v !in row then port else row[v];
    var g1 := if v in g || v == u then g else g[v := map[]];
    g1[u := row[v := kept]]
  }

  /** Two graphs with the same nodes and the same edges are equal. */
  lemma GraphExtensional(a: Graph, b: Graph)
    requires a.Keys == b.Keys
    requires forall u, v :: Edge(a, u, v) == Edge(b, u, v)
    ensures a == b
  {
    forall u | u in a ensures a[u] == b[u] {
      assert forall v :: v in a[u] <==> Edge(a, u, v).Some?;
      assert forall v :: v in b[u] <==> Edge(b, u, v).Some?;
      assert a[u].Keys == b[u].Keys;
      forall v | v in a[u] ensures a[u][v] == b[u][v] {
        assert Edge(a, u, v) == Edge(b, u, v);
      }
    }
  }

  // ---------------------------------------------------------------------------
  // Links
  // ---------------------------------------------------------------------------

  /** A discovered link: link.src.dpid / port_no and link.dst.dpid / port_no. */
  datatype Link = Link(srcDpid: nat, srcPort: nat, dstDpid: nat, dstPort: nat)

  /** The two add_edge calls for one link. */
  function AddLink(g: Graph, l: Link): Graph {
    var g1 := AddEdge(g, Switch(l.srcDpid), Switch(l.dstDpid), Some(l.srcPort));
    AddEdge(g1, Switch(l.dstDpid), Switch(l.srcDpid), Some(l.dstPort))
  }

  /** The `for link in link_list` loop, in list order. */
  function AddLinks(g: Graph, ls: seq<Link>): Graph
    decreases |ls|
  {
    if ls == [] then g else AddLink(AddLinks(g, ls[..|ls| - 1]), ls[|ls| - 1])
  }

  /** The switches a link list names. */
  function LinkNodes(ls: seq<Link>): set<Node>
    decreases |ls|
  {
    if ls == [] then {}
    else LinkNodes(ls[..|ls| - 1]) + {Switch(ls[|ls| - 1].srcDpid), Switch(ls[|ls| - 1].dstDpid)}
  }

  /** The port link l writes on edge u -> v, if it writes that edge; on a self-loop the
      second add_edge wins. */
  function LinkPort(l: Link, u: Node, v: Node): Option<nat> {
    if u == Switch(l.dstDpid) && v == Switch(l.srcDpid) then Some(l.dstPort)
    else if u == Switch(l.srcDpid) && v == Switch(l.dstDpid) then Some(l.srcPort)
    else None
  }

  /** The port the last link of ls that writes u -> v gives it. */
  function LastPort(ls: seq<Link>, u: Node, v: Node): Option<nat>
    decreases |ls|
  {
    if ls == [] then None
    else if LinkPort(ls[|ls| - 1], u, v).Some? then LinkPort(ls[|ls| - 1], u, v)
    else LastPort(ls[..|ls| - 1], u, v)
  }

  lemma AddLinkEdges(g: Graph, l: Link)
    ensures AddLink(g, l).Keys == g.Keys + {Switch(l.srcDpid), Switch(l.dstDpid)}
    ensures forall u, v :: Edge(AddLink(g, l), u, v) ==
              (if LinkPort(l, u, v).Some? then Some(LinkPort(l, u, v)) else Edge(g, u, v))
  {
  }

  /** After the link loop, every edge a link wrote carries the port of the last link
      that wrote it, every other edge is as before, and the new nodes are the links'
      switches. */
  lemma {:induction false} AddLinksEdges(g: Graph, ls: seq<Link>)
    ensures AddLinks(g, ls).Keys == g.Keys + LinkNodes(ls)
    ensures forall u, v :: Edge(AddLinks(g, ls), u, v) ==
              (if LastPort(ls, u, v).Some? then Some(LastPort(ls, u, v)) else Edge(g, u, v))
    decreases |ls|
  {
    if ls != [] {
      AddLinksEdges(g, ls[..|ls| - 1]);
      AddLinkEdges(AddLinks(g, ls[..|ls| - 1]), ls[|ls| - 1]);
    }
  }

  /** Running the link loop again over the same list changes nothing. */
  lemma AddLinksIdempotent(g: Graph, ls: seq<Link>)
    ensures AddLinks(AddLinks(g, ls), ls) == AddLinks(g, ls)
  {
    var once := AddLinks(g, ls);
    AddLinksEdges(g, ls);
    AddLinksEdges(once, ls);
    GraphExtensional(AddLinks(once, ls), once);
  }

  /** The last link of a list has both its directed edges, each with its own port. */
  lemma LastLinkEdges(g: Graph, ls: seq<Link>)
    requires ls != []
    requires ls[|ls| - 1].srcDpid != ls[|ls| - 1].dstDpid
    ensures Edge(AddLinks(g, ls), Switch(ls[|ls| - 1].srcDpid), Switch(ls[|ls| - 1].dstDpid)) == Some(Some(ls[|ls| - 1].srcPort))
    ensures Edge(AddLinks(g, ls), Switch(ls[|ls| - 1].dstDpid), Switch(ls[|ls| - 1].srcDpid)) == Some(Some(ls[|ls| - 1].dstPort))
  {
    AddLinksEdges(g, ls);
  }

  /** No two links of the list give the same directed edge different ports. */
  ghost predicate ConsistentLinks(ls: seq<Link>) {
    forall l1, l2, u, v | l1 in ls && l2 in ls && LinkPort(l1, u, v).Some? && LinkPort(l2, u, v).Some? ::
      LinkPort(l1, u, v) == LinkPort(l2, u, v)
  }

  /** In a consistent list, the port an edge ends up with is the port of any link that
      writes it, whatever the order of the list. */
  lemma {:induction false} LastPortConsistent(ls: seq<Link>, u: Node, v: Node)
    requires ConsistentLinks(ls)
    ensures LastPort(ls, u, v).Some? <==> exists l :: l in ls && LinkPort(l, u, v).Some?
    ensures forall l | l in ls && LinkPort(l, u, v).Some? :: LastPort(ls, u, v) == LinkPort(l, u, v)
    decreases |ls|
  {
    if ls != [] {
      var init := ls[..|ls| - 1];
      assert ls == init + [ls[|ls| - 1]];
      assert forall l :: l in init ==> l in ls;
      LastPortConsistent(init, u, v);
    }
  }

  /** Every directed edge of every link of a consistent list is present with its own port. */
  lemma EveryLinkEdges(g: Graph, ls: seq<Link>, l: Link)
    requires ConsistentLinks(ls)
    requires l in ls
    ensures Edge(AddLinks(g, ls), Switch(l.dstDpid), Switch(l.srcDpid)) == Some(Some(l.dstPort))
    ensures l.srcDpid != l.dstDpid ==>
              Edge(AddLinks(g, ls), Switch(l.srcDpid), Switch(l.dstDpid)) == Some(Some(l.srcPort))
  {
    AddLinksEdges(g, ls);
    LastPortConsistent(ls, Switch(l.dstDpid), Switch(l.srcDpid));
    LastPortConsistent(ls, Switch(l.srcDpid), Switch(l.dstDpid));
  }

  lemma SameLastPort(ls1: seq<Link>, ls2: seq<Link>, u: Node, v: Node)
    requires ConsistentLinks(ls1 + ls2)
    requires forall l :: l in ls1 <==> l in ls2
    ensures LastPort(ls1, u, v) == LastPort(ls2, u, v)
  {
    assert forall l :: l in ls1 + ls2 <==> l in ls1;
    assert ConsistentLinks(ls1) && ConsistentLinks(ls2);
    LastPortConsistent(ls1, u, v);
    LastPortConsistent(ls2, u, v);
    if LastPort(ls1, u, v).Some? {
      var l :| l in ls1 && LinkPort(l, u, v).Some?;
      assert l in ls2;
    }
  }

  /** The order of a consistent link list does not matter: two lists with the same links
      build the same graph. */
  lemma AddLinksOrderFree(g: Graph, ls1: seq<Link>, ls2: seq<Link>)
    requires ConsistentLinks(ls1 + ls2)
    requires forall l :: l in ls1 <==> l in ls2
    ensures AddLinks(g, ls1) == AddLinks(g, ls2)
  {
    var r1, r2 := AddLinks(g, ls1), AddLinks(g, ls2);
    assert r1.Keys == r2.Keys by {
      AddLinksEdges(g, ls1);
      AddLinksEdges(g, ls2);
      SameLinkNodes(ls1, ls2);
    }
    forall u, v ensures Edge(r1, u, v) == Edge(r2, u, v) {
      AddLinksEdgeAt(g, ls1, u, v);
      AddLinksEdgeAt(g, ls2, u, v);
      SameLastPort(ls1, ls2, u, v);
    }
    GraphExtensional(r1, r2);
  }

  lemma AddLinksEdgeAt(g: Graph, ls: seq<Link>, u: Node, v: Node)
    ensures Edge(AddLinks(g, ls), u, v) ==
              (if LastPort(ls, u, v).Some? then Some(LastPort(ls, u, v)) else Edge(g, u, v))
  {
    AddLinksEdges(g, ls);
  }

  lemma SameLinkNodes(ls1: seq<Link>, ls2: seq<Link>)
    requires forall l :: l in ls1 <==> l in ls2
    ensures LinkNodes(ls1) == LinkNodes(ls2)
  {
    LinkNodesMembers(ls1);
    LinkNodesMembers(ls2);
  }

  lemma {:induction false} LinkNodesMembers(ls: seq<Link>)
    ensures forall n :: n in LinkNodes(ls) <==> exists l :: l in ls && (n == Switch(l.srcDpid) || n == Switch(l.dstDpid))
    decreases |ls|
  {
    if ls != [] {
      var init := ls[..|ls| - 1];
      LinkNodesMembers(init);
      assert ls == init + [ls[|ls| - 1]];
      forall n | n in LinkNodes(ls) ensures exists l :: l in ls && (n == Switch(l.srcDpid) || n == Switch(l.dstDpid)) {
        if n in LinkNodes(init) {
          var l :| l in init && (n == Switch(l.srcDpid) || n == Switch(l.dstDpid));
          assert l in ls;
        }
      }
    }
  }

  // ---------------------------------------------------------------------------
  // Hosts
  // ---------------------------------------------------------------------------

  /** The first-sighting branch of `_packet_in_handler`: an unseen source becomes a node
      whose only edge, added without a port, leads to the packet-in switch, and the
      switch gains an edge to it carrying `port` (add_node and two add_edge calls); a
      known source is not moved. */
  function ObserveHost(g: Graph, dpid: nat, mac: string, port: nat): Graph {
    if Host(mac) in g then g
    else
      var row := if Switch(dpid) in g then g[Switch(dpid)] else map[];
      g[Host(mac) := map[Switch(dpid) := None]][Switch(dpid) := row[Host(mac) := Some(port)]]
  }

  /** What the first sighting adds, and that nothing else changes. */
  lemma ObserveHostEffect(g: Graph, dpid: nat, mac: string, port: nat)
    ensures Host(mac) in g ==> ObserveHost(g, dpid, mac, port) == g
    ensures Host(mac) !in g ==>
              && ObserveHost(g, dpid, mac, port).Keys == g.Keys + {Host(mac), Switch(dpid)}
              && Edge(ObserveHost(g, dpid, mac, port), Switch(dpid), Host(mac)) == Some(Some(port))
              && ObserveHost(g, dpid, mac, port)[Host(mac)] == map[Switch(dpid) := None]
              && forall u, v :: u != Host(mac) && v != Host(mac) ==> Edge(ObserveHost(g, dpid, mac, port), u, v) == Edge(g, u, v)
  {
  }

  /** The first sighting is the handler's three steps: `add_node(src)`,
      `add_edge(dpid, src, port=...)` and `add_edge(src, dpid)`. */
  lemma ObserveHostSteps(g: Graph, dpid: nat, mac: string, port: nat)
    requires Host(mac) !in g
    ensures AddEdge(AddEdge(AddNode(g, Host(mac)), Switch(dpid), Host(mac), Some(port)), Host(mac), Switch(dpid), None)
            == ObserveHost(g, dpid, mac, port)
  {
    var g1 := AddNode(g, Host(mac));
    var g2 := AddEdge(g1, Switch(dpid), Host(mac), Some(port));
    var r := AddEdge(g2, Host(mac), Switch(dpid), None);
    var o := ObserveHost(g, dpid, mac, port);
    forall u, v ensures Edge(r, u, v) == Edge(o, u, v) {
    }
    GraphExtensional(r, o);
  }

  // ---------------------------------------------------------------------------
  // The shape every handler keeps
  // ---------------------------------------------------------------------------

  /** The graph invariant: edge endpoints are nodes, every edge out of a switch has a
      port, an edge into a host comes from a switch that is the host's only successor,
      and every host has an edge to a switch that has an edge back. */
  ghost predicate GraphValid(g: Graph) {
    && (forall u, v | u in g && v in g[u] :: v in g)
    && (forall u, v | u in g && v in g[u] && u.Switch? :: g[u][v].Some?)
    && (forall u, v | u in g && v in g[u] && v.Host? :: u.Switch? && v in g && g[v].Keys == {u})
    && (forall h | h in g && h.Host? :: g[h] != map[])
    && (forall h, v | h in g && h.Host? && v in g[h] :: v.Switch? && v in g && h in g[v])
  }

  /** A walk through a host enters from and leaves to the host's one switch. */
  lemma HostNeighbours(g: Graph, u: Node, h: Node, v: Node)
    requires GraphValid(g)
    requires u in g && h in g[u] && h in g && v in g[h]
    ensures h.Host? ==> u == v && u.Switch?
  {
  }

  lemma EmptyGraphValid()
    ensures GraphValid(map[])
  {
  }

  lemma AddSwitchesValid(g: Graph, ids: seq<nat>)
    requires GraphValid(g)
    ensures GraphValid(AddSwitches(g, ids))
  {
    var r := AddSwitches(g, ids);
    assert forall u | u in g :: r[u] == g[u];
  }

  lemma AddEdgeSwitchesValid(g: Graph, a: nat, b: nat, port: nat)
    requires GraphValid(g)
    ensures GraphValid(AddEdge(g, Switch(a), Switch(b), Some(port)))
  {
    var r := AddEdge(g, Switch(a), Switch(b), Some(port));
    forall h | h in r && h.Host? ensures h in g && r[h] == g[h] {
      assert forall v :: Edge(r, h, v) == Edge(g, h, v);
      GraphExtensionalRow(r, g, h);
    }
  }

  lemma GraphExtensionalRow(a: Graph, b: Graph, u: Node)
    requires u in a && u in b
    requires forall v :: Edge(a, u, v) == Edge(b, u, v)
    ensures a[u] == b[u]
  {
    assert forall v :: v in a[u] <==> Edge(a, u, v).Some?;
    assert a[u].Keys == b[u].Keys;
    forall v | v in a[u] ensures a[u][v] == b[u][v] {
      assert Edge(a, u, v) == Edge(b, u, v);
    }
  }

  lemma {:induction false} AddLinksValid(g: Graph, ls: seq<Link>)
    requires GraphValid(g)
    ensures GraphValid(AddLinks(g, ls))
    decreases |ls|
  {
    if ls != [] {
      var l := ls[|ls| - 1];
      AddLinksValid(g, ls[..|ls| - 1]);
      var g0 := AddLinks(g, ls[..|ls| - 1]);
      AddEdgeSwitchesValid(g0, l.srcDpid, l.dstDpid, l.srcPort);
      AddEdgeSwitchesValid(AddEdge(g0, Switch(l.srcDpid), Switch(l.dstDpid), Some(l.srcPort)), l.dstDpid, l.srcDpid, l.dstPort);
    }
  }

  lemma ObserveHostValid(g: Graph, dpid: nat, mac: string, port: nat)
    requires GraphValid(g)
    ensures GraphValid(ObserveHost(g, dpid, mac, port))
  {
    if Host(mac) !in g {
      var h, s := Host(mac), Switch(dpid);
      var r := ObserveHost(g, dpid, mac, port);
      assert r[h].Keys == {s};
      forall u, v | u in r && v in r[u] ensures v in r && (u.Switch? ==> r[u][v].Some?) {
        if u != h && u != s {
          assert r[u] == g[u];
        }
      }
      forall u, v: Node | u in r && v in r[u] && v.Host? ensures u.Switch? && v in r && r[v].Keys == {u} {
        if v == h {
          assert u == s;
        } else if u == s {
          assert s in g && v in g[s];
          assert r[v] == g[v];
        } else {
          assert u != h;
          assert r[u] == g[u] && r[v] == g[v];
        }
      }
      forall x, v: Node | x in r && x.Host? && v in r[x] ensures v.Switch? && v in r && x in r[v] && r[x] != map[] {
        if x != h {
          assert r[x] == g[x];
          if v == s {
            assert x in g[s];
          } else {
            assert r[v] == g[v];
          }
        }
      }
      forall x | x in r && x.Host? ensures r[x] != map[] {
        if x != h {
          assert r[x] == g[x];
        }
      }
    }
  }

  /** `list(self.net[h].keys())[0]`: the switch the host is attached to, i.e. its only
      successor. */
  function Attachment(g: Graph, mac: string): (dpid: nat)
    requires GraphValid(g) && Host(mac) in g
    ensures g[Host(mac)].Keys == {Switch(dpid)}
    ensures Switch(dpid) in g && Host(mac) in g[Switch(dpid)]
  {
    var w :| w in g[Host(mac)];
    w.dpid
  }
}
