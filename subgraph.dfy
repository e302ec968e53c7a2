/**
 * CreateSubgraph: the route-local node index, the node-induced subgraph over
 * its endpoints, and the pruning of edges that are not on the route.
 *
 * The subgraph is a copy of the topology only: it shares the edge records
 * (and so their totals) with the graph, so it is modelled as a view, a node
 * set and a set of edge ids of the graph's arena.
 */
module Subgraph {
  import opened Wrappers
  import opened Graph
  import opened EdgeScan

  /** A graph view for path search: its nodes and the ids of its edges. */
  datatype View = View(nodes: set<Node>, ids: set<nat>)

  /** The whole graph as a view. */
  function WholeView(es: seq<Edge>): (w: View)
    ensures forall k :: k in w.ids <==> 0 <= k < |es|
    ensures forall k :: 0 <= k < |es| ==> es[k].src in w.nodes && es[k].dst in w.nodes
  {
    View((set k | 0 <= k < |es| :: es[k].src) + (set k | 0 <= k < |es| :: es[k].dst), IdRange(|es|))
  }

  /** The ids 0 .. n - 1. */
  function IdRange(n: nat): (r: set<nat>)
    ensures forall k: int :: k in r <==> 0 <= k < n
  {
    if n == 0 then {} else IdRange(n - 1) + {n - 1}
  }

  /** The node bunch: every node of every pair held by a node index. */
  function Endpoints(m: map<Link, (Node, Node)>): set<Node>
  {
    (set l | l in m :: m[l].0) + (set l | l in m :: m[l].1)
  }

  /** Node induction: every edge of the arena with both endpoints in `nodes`. */
  function Induced(es: seq<Edge>, nodes: set<Node>): (r: set<nat>)
    ensures forall k :: k in r <==> 0 <= k < |es| && es[k].src in nodes && es[k].dst in nodes
  {
    set k | 0 <= k < |es| && es[k].src in nodes && es[k].dst in nodes
  }

  /** The ids of `ids` on the pair u -> v. */
  function PairIds(es: seq<Edge>, ids: set<nat>, u: Node, v: Node): set<nat>
  {
    set k | k in ids && k < |es| && es[k].src == u && es[k].dst == v
  }

  /** The ids of `ids` on the pair u -> v whose link is not on the route. */
  function OffRoute(es: seq<Edge>, ids: set<nat>, routeLinks: seq<Link>, u: Node, v: Node): set<nat>
  {
    set k | k in ids && k < |es| && es[k].src == u && es[k].dst == v && es[k].link !in routeLinks
  }

  /** The off-route ids below `bound`: the ones the pruning loop has handled. */
  function OffBelow(es: seq<Edge>, ids: set<nat>, routeLinks: seq<Link>, bound: nat, u: Node, v: Node): set<nat>
  {
    set k | k in ids && k < bound && k < |es| && es[k].src == u && es[k].dst == v && es[k].link !in routeLinks
  }

  /**
   * The pruning outcome: a subset of the induced edges from which, on every
   * pair, one edge was removed per off-route edge of that pair.
   */
  ghost predicate Pruned(es: seq<Edge>, induced: set<nat>, routeLinks: seq<Link>, alive: set<nat>)
  {
    alive <= induced &&
    forall u, v :: |PairIds(es, alive, u, v)| + |OffRoute(es, induced, routeLinks, u, v)| == |PairIds(es, induced, u, v)|
  }

  lemma SubsetCard(a: set<nat>, b: set<nat>)
    requires a <= b
    ensures |a| <= |b|
  {
    assert b == a + (b - a);
  }

  /**
   * A pair with a single induced edge keeps it exactly when its link is on
   * the route.
   */
  lemma PrunedSingle(es: seq<Edge>, induced: set<nat>, routeLinks: seq<Link>, alive: set<nat>, k: nat)
    requires Pruned(es, induced, routeLinks, alive) && k < |es|
    requires PairIds(es, induced, es[k].src, es[k].dst) == {k}
    ensures k in alive <==> es[k].link in routeLinks
  {
    var u, v := es[k].src, es[k].dst;
    var kept := PairIds(es, alive, u, v);
    assert kept <= {k};
    if es[k].link in routeLinks {
      assert forall j :: j in OffRoute(es, induced, routeLinks, u, v) ==> j in PairIds(es, induced, u, v);
      assert OffRoute(es, induced, routeLinks, u, v) == {};
      assert |kept| == 1;
    } else {
      assert OffRoute(es, induced, routeLinks, u, v) == {k};
      assert |kept| == 0;
    }
  }

  /** Every surviving edge has both endpoints in the node set. */
  lemma PrunedInside(es: seq<Edge>, nodes: set<Node>, routeLinks: seq<Link>, alive: set<nat>, k: nat)
    requires Pruned(es, Induced(es, nodes), routeLinks, alive) && k in alive
    ensures k < |es| && es[k].src in nodes && es[k].dst in nodes
  {
  }

  /**
   * Every node of the bunch is an endpoint of an edge on the route, and every
   * route link some edge carries brings in both endpoints of one such edge.
   */
  lemma SubgraphNodes(es: seq<Edge>, scan: seq<nat>, routeLinks: seq<Link>, n: Node, l: Link)
    requires IsEdgeScan(es, scan)
    ensures n in Endpoints(NodeIndex(es, scan, Some(routeLinks))) ==>
      exists i :: 0 <= i < |es| && es[i].link in routeLinks && (n == es[i].src || n == es[i].dst)
    ensures l in routeLinks && (exists i :: 0 <= i < |es| && es[i].link == l) ==>
      exists i :: 0 <= i < |es| && es[i].link == l &&
                  es[i].src in Endpoints(NodeIndex(es, scan, Some(routeLinks))) &&
                  es[i].dst in Endpoints(NodeIndex(es, scan, Some(routeLinks)))
  {
    var m := NodeIndex(es, scan, Some(routeLinks));
    if n in Endpoints(m) {
      var l' :| l' in m && (m[l'].0 == n || m[l'].1 == n);
      NodeIndexKeys(es, scan, Some(routeLinks), l');
      NodeIndexValue(es, scan, Some(routeLinks), l');
    }
    if l in routeLinks && (exists i :: 0 <= i < |es| && es[i].link == l) {
      NodeIndexKeys(es, scan, Some(routeLinks), l);
      NodeIndexValue(es, scan, Some(routeLinks), l);
      var i :| 0 <= i < |es| && es[i].link == l && m[l] == (es[i].src, es[i].dst);
      assert m[l].0 in Endpoints(m) && m[l].1 in Endpoints(m);
    }
  }

  /**
   * The source's function: route-local index, node bunch, induced subgraph,
   * then `remove_edge(u, v)` (no key: any one u -> v edge) for every induced
   * edge whose link is off the route.
   */
  method CreateSubgraph(g: MultiGraph, routeLinks: seq<Link>, scan: seq<nat>) returns (routeNodes: map<Link, (Node, Node)>, sub: View)
    requires InRange(g.edges, scan)
    ensures routeNodes == NodeIndex(g.edges, scan, Some(routeLinks))
    ensures sub.nodes == Endpoints(routeNodes)
    ensures Pruned(g.edges, Induced(g.edges, sub.nodes), routeLinks, sub.ids)
  {
    var es := g.edges;
    routeNodes := ScanInto(es, Ends(es), scan, Some(routeLinks));
    var nodes := Endpoints(routeNodes);
    var alive := PruneOffRoute(es, Induced(es, nodes), routeLinks);
    sub := View(nodes, alive);
  }

  /** The removal loop over the induced edges. */
  method PruneOffRoute(es: seq<Edge>, induced: set<nat>, routeLinks: seq<Link>) returns (alive: set<nat>)
    ensures Pruned(es, induced, routeLinks, alive)
  {
    alive := induced;
    var k := 0;
    while k < |es|
      invariant 0 <= k <= |es| && alive <= induced
      invariant forall u, v :: |PairIds(es, alive, u, v)| + |OffBelow(es, induced, routeLinks, k, u, v)| == |PairIds(es, induced, u, v)|
    {
      if k in induced && es[k].link !in routeLinks {
        RemovablePair(es, induced, routeLinks, alive, k);
        var x :| x in PairIds(es, alive, es[k].src, es[k].dst);
        RemoveStep(es, induced, routeLinks, alive, k, x);
        alive := alive - {x};
      } else {
        forall u, v ensures OffBelow(es, induced, routeLinks, k + 1, u, v) == OffBelow(es, induced, routeLinks, k, u, v) {
        }
      }
      k := k + 1;
    }
    forall u, v ensures OffBelow(es, induced, routeLinks, k, u, v) == OffRoute(es, induced, routeLinks, u, v) {
    }
  }

  /** Removing one surviving edge of k's pair balances handling off-route edge k. */
  lemma RemoveStep(es: seq<Edge>, induced: set<nat>, routeLinks: seq<Link>, alive: set<nat>, k: nat, x: nat)
    requires k < |es| && k in induced && es[k].link !in routeLinks
    requires x in PairIds(es, alive, es[k].src, es[k].dst)
    requires forall u, v :: |PairIds(es, alive, u, v)| + |OffBelow(es, induced, routeLinks, k, u, v)| == |PairIds(es, induced, u, v)|
    ensures forall u, v :: |PairIds(es, alive - {x}, u, v)| + |OffBelow(es, induced, routeLinks, k + 1, u, v)| == |PairIds(es, induced, u, v)|
  {
    forall u, v ensures |PairIds(es, alive - {x}, u, v)| + |OffBelow(es, induced, routeLinks, k + 1, u, v)|
                        == |PairIds(es, induced, u, v)| {
      if u == es[k].src && v == es[k].dst {
        assert PairIds(es, alive - {x}, u, v) == PairIds(es, alive, u, v) - {x};
        assert OffBelow(es, induced, routeLinks, k + 1, u, v) == OffBelow(es, induced, routeLinks, k, u, v) + {k};
      } else {
        assert PairIds(es, alive - {x}, u, v) == PairIds(es, alive, u, v);
        assert OffBelow(es, induced, routeLinks, k + 1, u, v) == OffBelow(es, induced, routeLinks, k, u, v);
      }
    }
  }

  /** While an off-route edge of a pair is still unhandled, the pair still has a surviving edge. */
  lemma RemovablePair(es: seq<Edge>, induced: set<nat>, routeLinks: seq<Link>, alive: set<nat>, k: nat)
    requires k < |es| && k in induced && es[k].link !in routeLinks
    requires |PairIds(es, alive, es[k].src, es[k].dst)| + |OffBelow(es, induced, routeLinks, k, es[k].src, es[k].dst)|
             == |PairIds(es, induced, es[k].src, es[k].dst)|
    ensures PairIds(es, alive, es[k].src, es[k].dst) != {}
  {
    var u, v := es[k].src, es[k].dst;
    var below := OffBelow(es, induced, routeLinks, k, u, v);
    SubsetCard(below + {k}, PairIds(es, induced, u, v));
    assert k !in below;
  }
}
