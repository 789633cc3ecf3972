/**
 * Shortest paths over the topology graph, standing for `nx.has_path` and
 * `nx.shortest_path`: a breadth-first search by hop count whose result is a
 * path from the source to the destination with no shorter one, and the
 * interior path `[1:-1]` the apps install rules on.
 */
module Paths {
  import opened Outcomes
  import opened Topology

  /** Consecutive nodes of p are joined by edges of g. */
  predicate IsPath(g: Graph, p: seq<Node>) {
    && |p| >= 1
    && (forall i | 0 <= i < |p| :: p[i] in g)
    && (forall i | 0 <= i < |p| - 1 :: p[i + 1] in g[p[i]])
  }

  predicate PathFromTo(g: Graph, s: Node, d: Node, p: seq<Node>) {
    IsPath(g, p) && p[0] == s && p[|p| - 1] == d
  }

  /** p is a walk from s to d and no walk from s to d has fewer nodes. */
  ghost predicate IsShortestPath(g: Graph, s: Node, d: Node, p: seq<Node>) {
    PathFromTo(g, s, d, p) && forall q | PathFromTo(g, s, d, q) :: |p| <= |q|
  }

  /** The nodes one edge away from a node of r. */
  function Successors(g: Graph, r: set<Node>): set<Node> {
    set u, v | u in r && u in g && v in g[u] :: v
  }

  /** The nodes at most k edges away from s. */
  function Reach(g: Graph, s: Node, k: nat): set<Node>
    decreases k
  {
    if k == 0 then {s} else Reach(g, s, k - 1) + Successors(g, Reach(g, s, k - 1))
  }

  /** Every node a search from s can reach. */
  function Universe(g: Graph, s: Node): set<Node> {
    {s} + set u, v | u in g && v in g[u] :: v
  }

  lemma {:induction false} ReachInUniverse(g: Graph, s: Node, k: nat)
    ensures Reach(g, s, k) <= Universe(g, s)
    decreases k
  {
    if k > 0 {
      ReachInUniverse(g, s, k - 1);
    }
  }

  lemma {:induction false} ReachMonotone(g: Graph, s: Node, i: nat, j: nat)
    requires i <= j
    ensures Reach(g, s, i) <= Reach(g, s, j)
    decreases j - i
  {
    if i < j {
      ReachMonotone(g, s, i, j - 1);
    }
  }

  /** Once a layer adds nothing, no later layer does. */
  lemma {:induction false} ReachStable(g: Graph, s: Node, k: nat, j: nat)
    requires Reach(g, s, k + 1) == Reach(g, s, k)
    requires k <= j
    ensures Reach(g, s, j) == Reach(g, s, k)
    decreases j - k
  {
    if k < j {
      ReachStable(g, s, k, j - 1);
    }
  }

  /** The end of a walk from s with n edges is at most n edges away from s. */
  lemma {:induction false} WalkEndReached(g: Graph, s: Node, q: seq<Node>)
    requires IsPath(g, q) && q[0] == s
    ensures q[|q| - 1] in Reach(g, s, |q| - 1)
    decreases |q|
  {
    if |q| > 1 {
      var init := q[..|q| - 1];
      assert IsPath(g, init);
      WalkEndReached(g, s, init);
      assert q[|q| - 1] in g[q[|q| - 2]];
    }
  }

  lemma {:induction false} SubsetNoLarger(a: set<Node>, b: set<Node>)
    requires a <= b
    ensures |a| <= |b|
    decreases |a|
  {
    if a != {} {
      var y :| y in a;
      SubsetNoLarger(a - {y}, b - {y});
    }
  }

  lemma ProperSubsetSmaller(a: set<Node>, b: set<Node>, x: Node)
    requires a <= b && x in b && x !in a
    ensures |a| < |b|
  {
    SubsetNoLarger(a, b - {x});
  }

  /** Past a layer that adds nothing, every walk from s ends inside that layer. */
  lemma WalkEndInFixpoint(g: Graph, s: Node, k: nat, q: seq<Node>)
    requires Successors(g, Reach(g, s, k)) <= Reach(g, s, k)
    requires IsPath(g, q) && q[0] == s
    ensures q[|q| - 1] in Reach(g, s, k)
  {
    WalkEndReached(g, s, q);
    ReachBounded(g, s, k, |q| - 1);
  }

  /** Past a layer that adds nothing, no layer holds more. */
  lemma ReachBounded(g: Graph, s: Node, k: nat, j: nat)
    requires Successors(g, Reach(g, s, k)) <= Reach(g, s, k)
    ensures Reach(g, s, j) <= Reach(g, s, k)
  {
    if j <= k {
      ReachMonotone(g, s, j, k);
    } else {
      assert Reach(g, s, k + 1) == Reach(g, s, k);
      ReachStable(g, s, k, j);
    }
  }

  /** When a layer adds nothing and d is not reached, no walk leads from s to d. */
  lemma NoWalkPastFixpoint(g: Graph, s: Node, d: Node, k: nat)
    requires Successors(g, Reach(g, s, k)) <= Reach(g, s, k)
    requires d !in Reach(g, s, k)
    ensures forall q :: !PathFromTo(g, s, d, q)
  {
    forall q | PathFromTo(g, s, d, q) ensures false {
      WalkEndInFixpoint(g, s, k, q);
    }
  }

  /** A walk with k edges to a node that is not within k - 1 edges is a shortest one. */
  lemma LayerWalkShortest(g: Graph, s: Node, d: Node, k: nat, p: seq<Node>)
    requires PathFromTo(g, s, d, p) && |p| == k + 1
    requires k > 0 ==> d !in Reach(g, s, k - 1)
    ensures IsShortestPath(g, s, d, p)
  {
    forall q | PathFromTo(g, s, d, q) ensures |p| <= |q| {
      WalkEndReached(g, s, q);
      if |q| - 1 < k {
        ReachMonotone(g, s, |q| - 1, k - 1);
      }
    }
  }

  /** A node first reached in layer i has a predecessor first reached in layer i - 1. */
  lemma LayerPredecessor(g: Graph, s: Node, i: nat, cur: Node)
    requires i > 0
    requires cur in Reach(g, s, i) && cur !in Reach(g, s, i - 1)
    ensures exists pred :: pred in Reach(g, s, i - 1) && pred in g && cur in g[pred] && (i > 1 ==> pred !in Reach(g, s, i - 2))
  {
    assert cur in Successors(g, Reach(g, s, i - 1));
    var pred :| pred in Reach(g, s, i - 1) && pred in g && cur in g[pred];
    if i > 1 {
      assert Successors(g, Reach(g, s, i - 2)) <= Reach(g, s, i - 1);
    }
  }

  /** A layer that adds a node grows the reached set, which stays inside the universe. */
  lemma LayerGrows(g: Graph, s: Node, k: nat, r: set<Node>)
    requires r == Reach(g, s, k)
    requires !(Successors(g, r) <= r)
    ensures |r| < |r + Successors(g, r)| <= |Universe(g, s)|
  {
    ReachInUniverse(g, s, k + 1);
    var x :| x in Successors(g, r) && x !in r;
    ProperSubsetSmaller(r, r + Successors(g, r), x);
    SubsetNoLarger(r + Successors(g, r), Universe(g, s));
  }

  /** The layer phase of the search: grows the reached set one layer at a time until it
      holds d or stops growing, and returns the number of layers grown. */
  method Layers(g: Graph, s: Node, d: Node) returns (k: nat)
    ensures d in Reach(g, s, k) ==> k == 0 || d !in Reach(g, s, k - 1)
    ensures d !in Reach(g, s, k) ==> Successors(g, Reach(g, s, k)) <= Reach(g, s, k)
  {
    k := 0;
    var reached := {s};
    ReachInUniverse(g, s, 0);
    SubsetNoLarger(reached, Universe(g, s));
    while d !in reached && !(Successors(g, reached) <= reached)
      invariant reached == Reach(g, s, k)
      invariant |reached| <= |Universe(g, s)|
      invariant k > 0 ==> d !in Reach(g, s, k - 1)
      decreases |Universe(g, s)| - |reached|
    {
      LayerGrows(g, s, k, reached);
      reached := reached + Successors(g, reached);
      k := k + 1;
    }
  }

  /** A node with an edge into the start of a walk extends it backwards. */
  lemma PrependEdge(g: Graph, u: Node, p: seq<Node>)
    requires IsPath(g, p) && u in g && p[0] in g[u]
    ensures IsPath(g, [u] + p) && ([u] + p)[|p|] == p[|p| - 1]
  {
    var q := [u] + p;
    forall i | 0 <= i < |q| - 1 ensures q[i + 1] in g[q[i]] {
      if i > 0 {
        assert q[i] == p[i - 1] && q[i + 1] == p[i];
      }
    }
  }

  /** The reconstruction phase: walks back from d, first reached in layer k, choosing at
      each step a predecessor first reached one layer earlier. */
  method WalkBack(g: Graph, s: Node, d: Node, k: nat) returns (path: seq<Node>)
    requires d in g
    requires d in Reach(g, s, k) && (k == 0 || d !in Reach(g, s, k - 1))
    ensures PathFromTo(g, s, d, path) && |path| == k + 1
  {
    path := [d];
    var i := k;
    while i > 0
      invariant 0 <= i <= k
      invariant |path| == k - i + 1
      invariant path[0] in Reach(g, s, i)
      invariant i > 0 ==> path[0] !in Reach(g, s, i - 1)
      invariant path[|path| - 1] == d
      invariant IsPath(g, path)
    {
      LayerPredecessor(g, s, i, path[0]);
      var pred :| pred in Reach(g, s, i - 1) && pred in g && path[0] in g[pred] && (i > 1 ==> pred !in Reach(g, s, i - 2));
      PrependEdge(g, pred, path);
      path := [pred] + path;
      i := i - 1;
    }
  }

  /** Breadth-first search by hop count, standing for `nx.has_path` together with
      `nx.shortest_path`: a shortest path when one exists, None exactly when none does. */
  method ShortestPath(g: Graph, s: Node, d: Node) returns (r: Option<seq<Node>>)
    requires s in g && d in g
    ensures r.Some? ==> IsShortestPath(g, s, d, r.value)
    ensures r.None? ==> forall q :: !PathFromTo(g, s, d, q)
  {
    var k := Layers(g, s, d);
    if d !in Reach(g, s, k) {
      NoWalkPastFixpoint(g, s, d, k);
      return None;
    }
    var path := WalkBack(g, s, d, k);
    LayerWalkShortest(g, s, d, k, path);
    r := Some(path);
  }

  // ---------------------------------------------------------------------------
  // What a shortest path looks like
  // ---------------------------------------------------------------------------

  /** Cutting out the loop between two visits of the same node keeps a walk. */
  lemma Shortcut(g: Graph, p: seq<Node>, a: nat, b: nat)
    requires IsPath(g, p)
    requires a < b < |p| && p[a] == p[b]
    ensures IsPath(g, p[..a] + p[b..])
    ensures (p[..a] + p[b..])[0] == p[0]
    ensures (p[..a] + p[b..])[|p[..a] + p[b..]| - 1] == p[|p| - 1]
    ensures |p[..a] + p[b..]| == |p| - (b - a)
  {
    var q := p[..a] + p[b..];
    forall i | 0 <= i < |q| - 1 ensures q[i + 1] in g[q[i]] {
      if i + 1 < a {
        assert q[i] == p[i] && q[i + 1] == p[i + 1];
      } else if i + 1 == a {
        assert q[i] == p[i] && q[i + 1] == p[b] == p[i + 1];
      } else {
        assert q[i] == p[i - a + b] && q[i + 1] == p[i + 1 - a + b];
      }
    }
  }

  /** A shortest path visits no node twice. */
  lemma ShortestPathSimple(g: Graph, s: Node, d: Node, p: seq<Node>)
    requires IsShortestPath(g, s, d, p)
    ensures forall i, j | 0 <= i < j < |p| :: p[i] != p[j]
  {
    forall i, j | 0 <= i < j < |p| ensures p[i] != p[j] {
      if p[i] == p[j] {
        Shortcut(g, p, i, j);
        assert PathFromTo(g, s, d, p[..i] + p[j..]);
      }
    }
  }

  /** `path[1:-1]`: the path without its two ends. */
  function Interior(p: seq<Node>): seq<Node> {
    if |p| <= 2 then [] else p[1..|p| - 1]
  }

  /** The interior of a shortest path holds only switches: a host in the middle would be
      entered from and left to its one switch, a loop a shortest path does not make. */
  lemma InteriorSwitches(g: Graph, s: Node, d: Node, p: seq<Node>)
    requires GraphValid(g)
    requires IsShortestPath(g, s, d, p)
    ensures forall n | n in Interior(p) :: n.Switch?
  {
    ShortestPathSimple(g, s, d, p);
    forall i | 0 < i < |p| - 1 ensures p[i].Switch? {
      HostNeighbours(g, p[i - 1], p[i], p[i + 1]);
      assert p[i - 1] != p[i + 1];
    }
  }

  /** Between two hosts a shortest path is the single host when they are the same, and
      otherwise host, at least one switch, host, starting with the source's attachment
      switch and ending with the destination's. */
  lemma HostPathShape(g: Graph, src: string, dst: string, p: seq<Node>)
    requires GraphValid(g)
    requires Host(src) in g && Host(dst) in g
    requires IsShortestPath(g, Host(src), Host(dst), p)
    ensures src == dst ==> p == [Host(src)]
    ensures src != dst ==> |p| >= 3
    ensures src != dst ==> p[1] == Switch(Attachment(g, src)) && p[|p| - 2] == Switch(Attachment(g, dst))
  {
    if src == dst {
      assert PathFromTo(g, Host(src), Host(dst), [Host(src)]);
    } else {
      assert p[1] in g[p[0]];
      assert p[|p| - 1] in g[p[|p| - 2]];
      assert g[Host(dst)].Keys == {p[|p| - 2]};
    }
  }
}
