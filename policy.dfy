/**
 * The admission predicates of the A2 apps and the parity helper of the T2P2 and
 * A2 apps, written with Python's truthiness of `x % 2` spelled out.
 */
module Policy {
  import opened Outcomes
  import opened Topology
  import opened Paths

  /** `isEven(n)`: `n % 2 == 0` (floor and Euclidean remainder agree on naturals). */
  predicate IsEven(n: nat) {
    n % 2 == 0
  }

  /** The parity of a sum is even exactly when both summands have the same parity. */
  lemma IsEvenSum(a: nat, b: nat)
    ensures IsEven(a + b) <==> (IsEven(a) <==> IsEven(b))
  {
  }

  /** The drop condition of the A2 apps on the two attachment-switch ids, as written:
      `not((src_id%2 and dst_id%2) or not(src_id%2 or dst_id%2))`, where `x%2` is true
      when it is non-zero. It holds exactly when the two parities differ. */
  predicate Blocked(srcId: nat, dstId: nat)
    ensures Blocked(srcId, dstId) <==> IsEven(srcId) != IsEven(dstId)
  {
    !((srcId % 2 != 0 && dstId % 2 != 0) || !(srcId % 2 != 0 || dstId % 2 != 0))
  }

  /** The drop decision does not depend on which endpoint is the source. */
  lemma BlockedSymmetric(a: nat, b: nat)
    ensures Blocked(a, b) == Blocked(b, a)
  {
  }

  /** The forwarding test of the q3test app: the sum of the first and last interior
      switch ids, `shortestPath[0] + shortestPath[len(shortestPath)-1]`, is even.
      None stands for the exceptions the expression raises: an IndexError on an
      empty interior, a TypeError when an end is not a switch id. */
  function EndsSumEven(interior: seq<Node>): (r: Option<bool>)
    ensures r.Some? <==> |interior| > 0 && interior[0].Switch? && interior[|interior| - 1].Switch?
    ensures r.Some? ==> (r.value <==> IsEven(interior[0].dpid) == IsEven(interior[|interior| - 1].dpid))
  {
    if |interior| == 0 || !interior[0].Switch? || !interior[|interior| - 1].Switch? then None
    else Some(IsEven(interior[0].dpid + interior[|interior| - 1].dpid))
  }

  /** On a shortest path between two distinct hosts the q3test test is the negation of
      the drop condition of the other A2 apps: the first and last interior switches are
      the attachment switches of the source and of the destination. */
  lemma EndsSumEvenIsNotBlocked(g: Graph, src: string, dst: string, p: seq<Node>)
    requires GraphValid(g)
    requires Host(src) in g && Host(dst) in g && src != dst
    requires IsShortestPath(g, Host(src), Host(dst), p)
    ensures EndsSumEven(Interior(p)) == Some(!Blocked(Attachment(g, src), Attachment(g, dst)))
  {
    HostPathShape(g, src, dst, p);
    var ip := Interior(p);
    assert ip[0] == p[1] && ip[|ip| - 1] == p[|p| - 2];
    IsEvenSum(Attachment(g, src), Attachment(g, dst));
  }
}
